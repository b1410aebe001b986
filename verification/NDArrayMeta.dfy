/**
 The metadata of an array: its shape and strides, and the operations that rewrite both.

 The methods overwrite the two fields one after the other, as the object does; each is tied to
 a function from the old layout to the new one, which the theorems about views use. The
 assertions of the object are the cases where that function has no result.
 */
module NDArrayMetas {
  import opened Collections
  import opened MixedRadix
  import opened Strides

  const HT_MAX_NDIM := 16

  datatype Layout = Layout(shape: seq<nat>, stride: seq<nat>) {
    predicate Paired() {
      |shape| == |stride|
    }
  }

  /** Axes count from the end when negative; an error outside [-n, n). */
  function ParseAxis(axis: int, n: nat): (r: Option<nat>)
    ensures r.Some? <==> 0 - n <= axis < n
    ensures r.Some? ==> r.value < n && (r.value - axis) % n == 0
  {
    if 0 - n <= axis < n then Some(if axis >= 0 then axis else axis + n) else None
  }

  /** Adds a dimension of size 1. */
  function Unsqueezed(l: Layout, dim: int): Option<Layout>
    requires l.Paired()
  {
    var d := ParseAxis(dim, |l.shape| + 1);
    if d.None? then None else
      Some(Layout(With(l.shape, d.value, 1),
                  With(l.stride, d.value, if d.value >= |l.shape| then 1 else l.shape[d.value] * l.stride[d.value])))
  }

  /** A row-major layout stays row-major. */
  lemma UnsqueezeRowMajor(l: Layout, dim: int)
    requires l.Paired() && 0 !in l.shape && l.stride == RowMajor(l.shape) && Unsqueezed(l, dim).Some?
    ensures Unsqueezed(l, dim).value.stride == RowMajor(Unsqueezed(l, dim).value.shape)
  {
    var d := ParseAxis(dim, |l.shape| + 1).value;
    assert l.stride == Weights(l.shape) && 0 !in With(l.shape, d, 1);
    hide Weights;
    WithWeights(l.shape, d);
  }

  lemma WithWeights(shape: seq<nat>, d: nat)
    requires d <= |shape|
    ensures With(Weights(shape), d, if d >= |shape| then 1 else shape[d] * Weights(shape)[d])
         == Weights(With(shape, d, 1))
  {
    var x := if d >= |shape| then 1 else shape[d] * Weights(shape)[d];
    var one, two := With(Weights(shape), d, x), Weights(With(shape, d, 1));
    forall i | 0 <= i <= |shape| ensures one[i] == two[i] {
      WeightWith(shape, d, i);
      hide Weights;
    }
  }

  lemma WeightWith(shape: seq<nat>, d: nat, i: nat)
    requires d <= |shape| && i <= |shape|
    ensures Weights(With(shape, d, 1))[i]
         == if i < d then Weights(shape)[i]
            else if i > d then Weights(shape)[i - 1]
            else if d >= |shape| then 1 else shape[d] * Weights(shape)[d]
  {
    hide Prod;
    if i < d {
      WeightBefore(shape, d, i);
    } else {
      WeightAfter(shape, d, i);
    }
  }

  lemma WeightBefore(shape: seq<nat>, d: nat, i: nat)
    requires i < d <= |shape|
    ensures Prod(With(shape, d, 1)[i + 1..]) == Prod(shape[i + 1..])
  {
    hide Prod;
    var a, b := shape[i + 1..d], shape[d..];
    assert With(shape, d, 1)[i + 1..] == a + [1] + b && shape[i + 1..] == a + [] + b;
    ProdOfThree(a, [1], b);
    ProdOfThree(a, [], b);
    ProdSingle(1);
    ProdNothing([]);
  }

  lemma WeightAfter(shape: seq<nat>, d: nat, i: nat)
    requires d <= i <= |shape|
    ensures Prod(With(shape, d, 1)[i + 1..]) == Prod(shape[i..])
    ensures i < |shape| ==> Prod(shape[i..]) == shape[i] * Prod(shape[i + 1..])
    ensures i == |shape| ==> Prod(shape[i..]) == 1
  {
    hide Prod;
    assert With(shape, d, 1)[i + 1..] == shape[i..];
    if i < |shape| {
      ProdTail(shape, i);
      MulComm(shape[i], Prod(shape[i + 1..]));
    } else {
      ProdNothing(shape[i..]);
    }
  }

  lemma ProdNothing(s: seq<nat>)
    requires s == []
    ensures Prod(s) == 1
  {
  }

  /** Removes one dimension if it has size 1. */
  function SqueezedAt(l: Layout, dim: int): Option<Layout>
    requires l.Paired()
  {
    var d := ParseAxis(dim, |l.shape|);
    if d.None? then None
    else if l.shape[d.value] != 1 then Some(l)
    else Some(Layout(Without(l.shape, d.value), Without(l.stride, d.value)))
  }

  /** Removes every dimension of size 1. */
  function Squeezed(l: Layout): (r: Layout)
    requires l.Paired()
    ensures r.Paired() && |r.shape| <= |l.shape|
    decreases |l.shape|
  {
    if l.shape == [] then l else
      var k := |l.shape| - 1;
      var most := Squeezed(Layout(l.shape[..k], l.stride[..k]));
      if l.shape[k] == 1 then most else Layout(most.shape + [l.shape[k]], most.stride + [l.stride[k]])
  }

  /** Every axis is in range, counted from the end when negative. */
  predicate AxesParse(axes: seq<int>, n: nat) {
    forall i | 0 <= i < |axes| :: ParseAxis(axes[i], n).Some?
  }

  ghost function PermutedLayout(l: Layout, axes: seq<int>): Option<Layout>
    requires l.Paired()
  {
    if Permutation(axes, |l.shape|) then Some(Layout(Permuted(l.shape, axes), Permuted(l.stride, axes))) else None
  }

  /** Fuses the dimensions from `s` to `e`. */
  function FlatShape(shape: seq<nat>, s: nat, e: nat): seq<nat>
    requires s <= e < |shape|
  {
    shape[..s] + [Prod(shape[s..e + 1])] + shape[e + 1..]
  }

  lemma FlatParts(shape: seq<nat>, s: nat, e: nat)
    requires s <= e < |shape|
    ensures var flat := FlatShape(shape, s, e);
            && |flat| == |shape| - (e - s) && flat[s] == Prod(shape[s..e + 1])
            && flat[..s] == shape[..s] && flat[s + 1..] == shape[e + 1..]
  {
    hide Prod;
  }

  lemma FlatKeepsNumel(shape: seq<nat>, s: nat, e: nat)
    requires s <= e < |shape|
    ensures Prod(FlatShape(shape, s, e)) == Prod(shape)
  {
    hide Prod;
    ThreeParts(shape, s, e + 1);
    ProdOfThree(shape[..s], shape[s..e + 1], shape[e + 1..]);
    ProdOfThree(shape[..s], [Prod(shape[s..e + 1])], shape[e + 1..]);
    ProdSingle(Prod(shape[s..e + 1]));
  }

  lemma ThreeParts<T>(s: seq<T>, a: nat, b: nat)
    requires a <= b <= |s|
    ensures s == s[..a] + s[a..b] + s[b..]
  {
    assert s[..b] == s[..a] + s[a..b];
    assert s == s[..b] + s[b..];
  }

  lemma ProdOfThree(a: seq<nat>, b: seq<nat>, c: seq<nat>)
    ensures Prod(a + b + c) == (Prod(a) * Prod(b)) * Prod(c)
  {
    hide Prod;
    ProdAppend(a + b, c);
    ProdAppend(a, b);
  }

  lemma ProdNext(shape: seq<nat>, a: nat, b: nat)
    requires a <= b < |shape|
    ensures Prod(shape[a..b + 1]) == Prod(shape[a..b]) * shape[b]
  {
    assert shape[a..b + 1][..b - a] == shape[a..b];
  }

  lemma ProdSingle(x: nat)
    ensures Prod([x]) == x
  {
    assert [x][..0] == [];
  }

  /** The sizes of a new shape, `-1` standing for whatever makes the counts agree; `None` is an error. */
  ghost predicate Reshapes(shape: seq<nat>, want: seq<int>, got: seq<nat>) {
    && |got| == |want| && Prod(got) == Prod(shape)
    && (forall i | 0 <= i < |want| :: want[i] >= -1 && (want[i] >= 0 ==> got[i] == want[i]))
    && (forall i, j | 0 <= i < j < |want| :: want[i] != -1 || want[j] != -1)
  }

  /** The place of the size to be inferred, if any. */
  function InferAt(want: seq<int>): (i: int)
    ensures -1 <= i < |want|
    ensures i >= 0 ==> want[i] == -1
    ensures i == -1 ==> forall j | 0 <= j < |want| :: want[j] != -1
  {
    if want == [] then -1 else
      var n := |want| - 1;
      if InferAt(want[..n]) >= 0 then InferAt(want[..n]) else if want[n] == -1 then n else
        assert forall j | 0 <= j < n :: want[..n][j] == want[j];
        -1
  }

  /** At most one -1, nothing below it, and counts that agree or divide. */
  predicate Viewable(shape: seq<nat>, want: seq<int>) {
    var i := InferAt(want);
    && (forall j | 0 <= j < |want| && j != i :: want[j] >= 0)
    && if i == -1 then Prod(AsNats(want)) == Prod(shape)
       else Prod(AsNats(want[i := 1])) >= 1 && Prod(shape) % Prod(AsNats(want[i := 1])) == 0
  }

  /**
   A shape is accepted exactly when some sizes fit it; a size is not inferred beside a size of zero, even for an
   array without elements.
   */
  lemma ViewableIff(shape: seq<nat>, want: seq<int>)
    ensures Viewable(shape, want) <==>
            (exists got: seq<nat> :: Reshapes(shape, want, got)) && !(-1 in want && 0 in want)
  {
    hide Prod;
    var i := InferAt(want);
    if Viewable(shape, want) {
      if i == -1 {
        assert Reshapes(shape, want, AsNats(want));
      } else {
        var others := Prod(AsNats(want[i := 1]));
        InferredProduct(want, i, Prod(shape), others);
        NoZero(want, i);
        assert Reshapes(shape, want, AsNats(want[i := Prod(shape) / others]));
      }
    }
    if got: seq<nat> :| Reshapes(shape, want, got) && !(-1 in want && 0 in want) {
      if i == -1 {
        assert got == AsNats(want);
      } else {
        assert want[i] == -1 && -1 in want;
        NoZero(want, i);
        assert got == AsNats(want[i := got[i]]);
        ProductOfOthers(want, i, got[i]);
        MulMod(Prod(AsNats(want[i := 1])), got[i]);
      }
    }
  }

  lemma NoZero(want: seq<int>, i: nat)
    requires i < |want| && want[i] == -1 && forall j | 0 <= j < |want| && j != i :: want[j] >= 0
    ensures Prod(AsNats(want[i := 1])) >= 1 <==> 0 !in want
  {
    var one := AsNats(want[i := 1]);
    if 0 !in want {
      ProdPos(one);
    } else {
      var j := IndexOf(want, 0);
      assert one[j] == 0;
      ZeroProd(one, j);
    }
  }

  lemma ZeroProd(s: seq<nat>, j: nat)
    requires j < |s| && s[j] == 0
    ensures Prod(s) == 0
  {
    hide Prod;
    ProdSplit(s, j);
  }

  lemma ProductOfOthers(want: seq<int>, i: nat, q: nat)
    requires i < |want| && forall j | 0 <= j < |want| && j != i :: want[j] >= 0
    ensures Prod(AsNats(want[i := q])) == Prod(AsNats(want[i := 1])) * q
  {
    var one, got := AsNats(want[i := 1]), AsNats(want[i := q]);
    assert one[..i] == got[..i] && one[i + 1..] == got[i + 1..];
    hide Prod, AsNats;
    ProdSplit(one, i);
    ProdSplit(got, i);
    var a, b := Prod(one[..i]), Prod(one[i + 1..]);
    MulComm(a, q);
    MulAssoc(q, a, b);
    MulComm(q, a * b);
  }

  lemma MulMod(a: nat, q: nat)
    requires a >= 1
    ensures (a * q) % a == 0
  {
    MulComm(a, q);
    DivModOf(q, a, 0);
  }

  method FlatShapeOf(shape: seq<nat>, s: nat, e: nat) returns (flat: seq<nat>)
    requires s <= e < |shape|
    ensures flat == FlatShape(shape, s, e)
  {
    var size := 1;
    for i := s to e + 1
      invariant size == Prod(shape[s..i])
    {
      ProdNext(shape, s, i);
      hide Prod;
      size := size * shape[i];
    }
    return shape[..s] + [size] + shape[e + 1..];
  }

  class NDArrayMeta {
    var shape: seq<nat>
    var stride: seq<nat>

    function Value(): Layout
      reads this
    {
      Layout(shape, stride)
    }

    ghost predicate Valid()
      reads this
    {
      Value().Paired()
    }

    constructor ()
      ensures Valid() && shape == [] && stride == []
    {
      shape, stride := [], [];
    }

    /** Replaces the shape and takes its row-major strides; an error above 16 dimensions. */
    method SetShape(s: seq<nat>) returns (ok: bool)
      requires Valid()
      modifies this
      ensures ok <==> |s| <= HT_MAX_NDIM
      ensures Valid() && Value() == if ok then Layout(s, RowMajor(s)) else old(Value())
    {
      if |s| > HT_MAX_NDIM {
        return false;
      }
      shape := s;
      stride := Shape2Stride(shape);
      return true;
    }

    /** Replaces the strides; an empty list is ignored. */
    method SetStride(s: seq<nat>) returns (ok: bool)
      requires Valid() && (s == [] || |s| == |shape|)
      modifies this`stride
      ensures ok <==> |s| <= HT_MAX_NDIM
      ensures Valid() && stride == if ok && s != [] then s else old(stride)
    {
      if |s| > HT_MAX_NDIM {
        return false;
      }
      if |s| == 0 {
        return true;
      }
      stride := s;
      return true;
    }

    method Unsqueeze(dim: int) returns (ok: bool)
      requires Valid()
      modifies this
      ensures ok <==> Unsqueezed(old(Value()), dim).Some?
      ensures Valid() && Value() == if ok then Unsqueezed(old(Value()), dim).value else old(Value())
      ensures ok <==> -1 - |old(shape)| <= dim <= |old(shape)|
      ensures ok ==> var d := if dim < 0 then dim + |old(shape)| + 1 else dim;
                     shape == old(shape)[..d] + [1] + old(shape)[d..]
    {
      var d := ParseAxis(dim, |shape| + 1);
      if d.None? {
        return false;
      }
      var newStride := if d.value >= |shape| then 1 else shape[d.value] * stride[d.value];
      shape := With(shape, d.value, 1);
      stride := With(stride, d.value, newStride);
      return true;
    }

    method Squeeze()
      requires Valid()
      modifies this
      ensures Valid() && Value() == Squeezed(old(Value()))
    {
      var keptShape, keptStride: seq<nat> := [], [];
      for i := 0 to |shape|
        invariant Layout(keptShape, keptStride) == Squeezed(Layout(shape[..i], stride[..i]))
      {
        assert shape[..i + 1][..i] == shape[..i] && stride[..i + 1][..i] == stride[..i];
        if shape[i] != 1 {
          keptShape := keptShape + [shape[i]];
          keptStride := keptStride + [stride[i]];
        }
      }
      assert shape[..|shape|] == shape && stride[..|stride|] == stride;
      shape, stride := keptShape, keptStride;
    }

    method SqueezeAt(dim: int) returns (ok: bool)
      requires Valid()
      modifies this
      ensures ok <==> SqueezedAt(old(Value()), dim).Some?
      ensures Valid() && Value() == if ok then SqueezedAt(old(Value()), dim).value else old(Value())
      ensures ok <==> 0 - |old(shape)| <= dim < |old(shape)|
      ensures ok ==> var d := if dim < 0 then dim + |old(shape)| else dim;
                     if old(shape)[d] != 1 then Value() == old(Value())
                     else shape == old(shape)[..d] + old(shape)[d + 1..]
                          && stride == old(stride)[..d] + old(stride)[d + 1..]
    {
      var d := ParseAxis(dim, |shape|);
      if d.None? {
        return false;
      }
      if shape[d.value] != 1 {
        return true;
      }
      shape := Without(shape, d.value);
      stride := Without(stride, d.value);
      return true;
    }

    /** Fuses a run of dimensions and rebuilds row-major strides. The run must not be reversed. */
    method Flatten(startDim: int, endDim: int) returns (ok: bool)
      requires Valid()
      requires var s, e := ParseAxis(startDim, |shape|), ParseAxis(endDim, |shape|);
               s.Some? && e.Some? ==> s.value <= e.value
      modifies this
      ensures ok <==> ParseAxis(startDim, |old(shape)|).Some? && ParseAxis(endDim, |old(shape)|).Some?
      ensures ok ==> shape == FlatShape(
                old(shape), ParseAxis(startDim, |old(shape)|).value, ParseAxis(endDim, |old(shape)|).value)
                     && stride == RowMajor(shape) && Prod(shape) == Prod(old(shape))
      ensures ok ==> var s, e := ParseAxis(startDim, |old(shape)|).value, ParseAxis(endDim, |old(shape)|).value;
                     && |shape| == |old(shape)| - (e - s) && shape[s] == Prod(old(shape)[s..e + 1])
                     && shape[..s] == old(shape)[..s] && shape[s + 1..] == old(shape)[e + 1..]
      ensures Valid() && (!ok ==> Value() == old(Value()))
    {
      var s, e := ParseAxis(startDim, |shape|), ParseAxis(endDim, |shape|);
      if s.None? || e.None? {
        return false;
      }
      hide FlatShape, Prod, RowMajor;
      FlatKeepsNumel(shape, s.value, e.value);
      FlatParts(shape, s.value, e.value);
      shape := FlatShapeOf(shape, s.value, e.value);
      stride := Shape2Stride(shape);
      return true;
    }

    /**
     Reorders shape and strides; an error unless the leading axes are a permutation. Further axes
     are only checked; one axis for each dimension at least must be given.
     */
    method Permute(axes: seq<int>) returns (ok: bool)
      requires Valid() && |axes| >= |shape|
      modifies this
      ensures ok <==> AxesParse(axes, |old(shape)|) && PermutedLayout(old(Value()), axes[..|old(shape)|]).Some?
      ensures Valid()
      ensures Value() == if ok then PermutedLayout(old(Value()), axes[..|old(shape)|]).value else old(Value())
    {
      var n := |shape|;
      if exists i :: 0 <= i < |axes| && ParseAxis(axes[i], n).None? {
        return false;
      }
      var seen := seq(n, i => false);
      for i := 0 to n
        invariant |seen| == n && forall j | 0 <= j < n :: seen[j] <==> j in axes[..i]
        invariant forall j | 0 <= j < i :: 0 <= axes[j] < n
        invariant NoDup(axes[..i]) && Value() == old(Value())
      {
        if !(0 <= axes[i] < n) {
          return false;
        }
        if seen[axes[i]] {
          RepeatedAxis(axes, i);
          return false;
        }
        NextAxis(axes, i);
        seen := seen[axes[i] := true];
      }
      shape, stride := Permuted(shape, axes[..n]), Permuted(stride, axes[..n]);
      return true;
    }

    /** `view`: the same number of elements under a new shape, with row-major strides. */
    method View(want: seq<int>) returns (ok: bool)
      requires Valid()
      modifies this
      ensures ok <==> Viewable(old(shape), want)
      ensures ok ==> Reshapes(old(shape), want, shape) && stride == RowMajor(shape)
      ensures !ok ==> Value() == old(Value())
      ensures Valid()
    {
      var infer := -1;
      for i := 0 to |want|
        invariant forall j | 0 <= j < i :: want[j] >= -1
        invariant -1 <= infer < i && Value() == old(Value())
        invariant infer >= 0 ==> want[infer] == -1 && forall j | 0 <= j < i && j != infer :: want[j] >= 0
        invariant infer == -1 ==> forall j | 0 <= j < i :: want[j] >= 0
      {
        if want[i] < -1 {
          return false;
        }
        if want[i] == -1 {
          if infer != -1 {
            return false;
          }
          infer := i;
        }
      }
      var current := NumEl(shape);
      var others := ProductExcept(want, infer);
      if infer != -1 {
        if others == 0 || current % others != 0 {
          return false;
        }
        var got := AsNats(want[infer := current / others]);
        InferredProduct(want, infer, current, others);
        shape := got;
      } else {
        if others != current {
          return false;
        }
        shape := AsNats(want);
      }
      stride := Shape2Stride(shape);
      return true;
    }
  }

  lemma RepeatedAxis(axes: seq<int>, i: nat)
    requires i < |axes| && axes[i] in axes[..i]
    ensures !NoDup(axes)
  {
    var j := IndexOf(axes[..i], axes[i]);
    assert axes[j] == axes[i];
  }

  lemma NoDupSnoc(s: seq<int>, x: int)
    requires NoDup(s) && x !in s
    ensures NoDup(s + [x])
  {
    forall a, b | 0 <= a < b < |s + [x]| ensures (s + [x])[a] != (s + [x])[b] {
      var y := s[a];
      assert y in s;
    }
  }

  lemma NextAxis(axes: seq<int>, i: nat)
    requires i < |axes| && NoDup(axes[..i]) && axes[i] !in axes[..i]
    ensures NoDup(axes[..i + 1]) && forall x :: x in axes[..i + 1] <==> x in axes[..i] || x == axes[i]
  {
    assert axes[..i + 1] == axes[..i] + [axes[i]];
    NoDupSnoc(axes[..i], axes[i]);
  }

  function AsNats(s: seq<int>): (r: seq<nat>)
    requires forall i | 0 <= i < |s| :: s[i] >= 0
    ensures |r| == |s| && forall i | 0 <= i < |s| :: r[i] == s[i]
  {
    seq(|s|, i requires 0 <= i < |s| => s[i])
  }

  /** The product of all sizes but the one to be inferred. */
  method ProductExcept(want: seq<int>, infer: int) returns (numel: nat)
    requires -1 <= infer < |want| && forall j | 0 <= j < |want| && j != infer :: want[j] >= 0
    ensures infer == -1 ==> numel == Prod(AsNats(want))
    ensures infer >= 0 ==> numel == Prod(AsNats(want[infer := 1]))
  {
    var sizes := if infer == -1 then want else want[infer := 1];
    numel := NumEl(AsNats(sizes));
  }

  lemma InferredProduct(want: seq<int>, infer: nat, current: nat, others: nat)
    requires infer < |want| && forall j | 0 <= j < |want| && j != infer :: want[j] >= 0
    requires others == Prod(AsNats(want[infer := 1])) && others >= 1 && current % others == 0
    ensures current / others >= 0 && Prod(AsNats(want[infer := current / others])) == current
  {
    var q := current / others;
    var one, got := AsNats(want[infer := 1]), AsNats(want[infer := q]);
    assert one[..infer] == got[..infer] && one[infer + 1..] == got[infer + 1..];
    hide Prod, AsNats;
    ProdSplit(one, infer);
    ProdSplit(got, infer);
    Regroup(Prod(one[..infer]), q, Prod(one[infer + 1..]), others, current);
  }

  lemma Regroup(a: nat, q: nat, b: nat, others: nat, current: nat)
    requires others == a * 1 * b && others >= 1 && current % others == 0 && q == current / others
    ensures a * q * b == current
  {
    MulComm(a, q);
    MulAssoc(q, a, b);
    MulComm(others, q);
  }
}
