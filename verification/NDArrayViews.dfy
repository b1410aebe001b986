/**
 The functions that make views: loops over dimensions, the metadata object they fill, and the
 constructor's check.

 Each computes a layout step by step, hands it to a new array over the same storage and fails
 where one of its assertions does; the contracts give the view function it computes.
 */
module NDArrayViews {
  import opened Collections
  import opened MixedRadix
  import opened Strides
  import opened NDArrayMetas
  import opened StridedViews
  import opened ViewChains

  /** An array is made only if its storage holds the offset and as many elements as the shape counts. */
  function Made(v: Option<NDArray>, size: nat): Option<NDArray> {
    if v.None? || !StorageSuffices(v.value, size) then None else v
  }

  method NewArray(layout: Layout, offset: nat, size: nat) returns (v: Option<NDArray>)
    ensures v == Made(Some(NDArray(layout, offset)), size)
  {
    var numel := NumEl(layout.shape);
    return if size >= offset + numel then Some(NDArray(layout, offset)) else None;
  }

  /** Metadata with the given shape and strides; an error above 16 dimensions. */
  method NewMeta(shape: seq<nat>, stride: seq<nat>) returns (meta: NDArrayMeta, ok: bool)
    requires |shape| == |stride|
    ensures fresh(meta) && meta.Valid() && (ok <==> |shape| <= HT_MAX_NDIM)
    ensures ok ==> meta.Value() == Layout(shape, stride)
  {
    meta := new NDArrayMeta();
    ok := meta.SetShape(shape);
    if ok {
      ok := meta.SetStride(stride);
    }
  }

  method PermuteArray(v: NDArray, axes: seq<int>, size: nat) returns (r: Option<NDArray>)
    requires v.layout.Paired() && |axes| >= |v.layout.shape|
    ensures r == Made(PermuteBy(v, axes), size)
  {
    var meta, ok := NewMeta(v.layout.shape, v.layout.stride);
    if !ok {
      return None;
    }
    ok := meta.Permute(axes);
    if !ok {
      return None;
    }
    r := NewArray(meta.Value(), v.offset, size);
  }

  /** The three loops that list the axes with `src` moved to `dst`. */
  method MovedAxes(n: nat, src: nat, dst: nat) returns (dims: seq<int>)
    requires src < n && dst < n
    ensures dims == MoveAxes(n, src, dst)
  {
    dims := seq(n, i => 0);
    if src < dst {
      for i := 0 to src
        invariant |dims| == n && forall j | 0 <= j < i :: dims[j] == j
      {
        dims := dims[i := i];
      }
      for i := src to dst
        invariant |dims| == n && (forall j | 0 <= j < src :: dims[j] == j)
        invariant forall j | src <= j < i :: dims[j] == j + 1
      {
        dims := dims[i := i + 1];
      }
      dims := dims[dst := src];
      for i := dst + 1 to n
        invariant |dims| == n && (forall j | 0 <= j < src :: dims[j] == j)
        invariant forall j | src <= j < dst :: dims[j] == j + 1
        invariant dims[dst] == src && forall j | dst < j < i :: dims[j] == j
      {
        dims := dims[i := i];
      }
    } else if src > dst {
      for i := 0 to dst
        invariant |dims| == n && forall j | 0 <= j < i :: dims[j] == j
      {
        dims := dims[i := i];
      }
      dims := dims[dst := src];
      for i := dst + 1 to src + 1
        invariant |dims| == n && (forall j | 0 <= j < dst :: dims[j] == j) && dims[dst] == src
        invariant forall j | dst < j < i :: dims[j] == j - 1
      {
        dims := dims[i := i - 1];
      }
      for i := src + 1 to n
        invariant |dims| == n && (forall j | 0 <= j < dst :: dims[j] == j) && dims[dst] == src
        invariant (forall j | dst < j <= src :: dims[j] == j - 1) && forall j | src < j < i :: dims[j] == j
      {
        dims := dims[i := i];
      }
    } else {
      for i := 0 to n
        invariant |dims| == n && forall j | 0 <= j < i :: dims[j] == j
      {
        dims := dims[i := i];
      }
    }
    MovedAt(n, src, dst, dims);
  }

  lemma MovedAt(n: nat, src: nat, dst: nat, dims: seq<int>)
    requires src < n && dst < n && |dims| == n
    requires forall j | 0 <= j < n ::
               dims[j] == if j == dst then src else if src <= j < dst then j + 1
                          else if dst < j <= src then j - 1 else j
    ensures dims == MoveAxes(n, src, dst)
  {
    var all: seq<int> := seq(n, i => i);
    hide Without, With;
    forall j: nat | j < n ensures dims[j] == With(Without(all, src), dst, src)[j] {
      PutBackAt(all, src, dst, src, j);
    }
  }

  lemma PutBackAt<T>(s: seq<T>, p: nat, q: nat, x: T, j: nat)
    requires p < |s| && q < |s| && j < |s|
    ensures var k := if j < q then j else j - 1;
            With(Without(s, p), q, x)[j] == if j == q then x else s[if k < p then k else k + 1]
  {
    var rest := Without(s, p);
    var back := With(rest, q, x);
    assert Without(back, q) == rest;
  }

  method MoveDimArray(v: NDArray, src: int, dst: int, size: nat) returns (r: Option<NDArray>)
    requires v.layout.Paired()
    ensures r == Made(MoveDim(v, src, dst), size)
  {
    var s, d := ParseAxis(src, |v.layout.shape|), ParseAxis(dst, |v.layout.shape|);
    if s.None? || d.None? {
      return None;
    }
    var dims := MovedAxes(|v.layout.shape|, s.value, d.value);
    MoveAxesPermutes(|v.layout.shape|, s.value, d.value);
    PermuteByAll(v, dims);
    hide MoveAxes, PermuteBy, Permute;
    r := PermuteArray(v, dims, size);
  }

  /** Negative positions count from the end; both ends are clamped to the dimension. */
  method ClampSlice(begin: int, len: int, n: nat) returns (start: int, end: int)
    ensures start == SliceStart(begin, n) && end == SliceEnd(begin, len, n)
  {
    start, end := begin, begin + len;
    if start < 0 { start := start + n; }
    if end < 0 { end := end + n; }
    if start < 0 { start := 0; } else if start >= n { start := n; }
    if end < start { end := start; } else if end >= n { end := n; }
  }

  lemma DotNext(xs: seq<nat>, ys: seq<nat>, i: nat)
    requires |xs| == |ys| && i < |xs|
    ensures Dot(xs[..i + 1], ys[..i + 1]) == Dot(xs[..i], ys[..i]) + xs[i] * ys[i]
  {
    assert xs[..i + 1][..i] == xs[..i] && ys[..i + 1][..i] == ys[..i];
  }

  /** The loop over the dimensions: the clamped extents, and the offset of the first element. */
  method SliceBounds(l: Layout, begin: seq<int>, want: seq<int>, start: nat) returns (outShape: seq<nat>, offset: nat)
    requires l.Paired() && |begin| == |want| == |l.shape|
    ensures outShape == SliceShape(begin, want, l.shape)
    ensures offset == start + Dot(Starts(begin, l.shape), l.stride)
  {
    ghost var starts, lens := Starts(begin, l.shape), SliceShape(begin, want, l.shape);
    hide Dot, Starts, SliceShape, SliceStart, SliceEnd;
    outShape, offset := [], start;
    assert Dot(starts[..0], l.stride[..0]) == 0 by { DotNone(starts, l.stride); }
    for i := 0 to |l.shape|
      invariant outShape == lens[..i] && offset == start + Dot(starts[..i], l.stride[..i])
    {
      var first, end := ClampSlice(begin[i], want[i], l.shape[i]);
      DotNext(starts, l.stride, i);
      StepNat(first, l.stride[i]);
      offset := offset + first * l.stride[i];
      outShape := outShape + [(end - first) as nat];
    }
    assert starts[..|l.shape|] == starts && l.stride[..|l.shape|] == l.stride && lens[..|l.shape|] == lens;
  }

  lemma DotNone(xs: seq<nat>, ys: seq<nat>)
    requires |xs| == |ys|
    ensures Dot(xs[..0], ys[..0]) == 0
  {
  }

  lemma StepNat(a: nat, b: nat)
    ensures a * b >= 0
  {
  }

  method SliceArray(v: NDArray, begin: seq<int>, want: seq<int>, size: nat) returns (r: Option<NDArray>)
    requires v.layout.Paired()
    ensures r == Made(Slice(v, begin, want), size)
  {
    var shape, stride := v.layout.shape, v.layout.stride;
    if |begin| != |shape| || |want| != |shape| {
      return None;
    }
    var outShape, offset := SliceBounds(v.layout, begin, want, v.offset);
    hide Starts, SliceShape, Dot;
    var numel := NumEl(shape);
    if numel == 0 {
      offset := 0;
    }
    var meta, ok := NewMeta(outShape, stride);
    if !ok {
      return None;
    }
    r := NewArray(meta.Value(), offset, size);
  }

  method DiagonalArray(v: NDArray, dim1: int, dim2: int, offset: int, size: nat) returns (r: Option<NDArray>)
    requires v.layout.Paired()
    ensures r == Made(Diagonal(v, dim1, dim2, offset), size)
  {
    var shape, stride := v.layout.shape, v.layout.stride;
    var p1, p2 := ParseAxis(dim1, |shape|), ParseAxis(dim2, |shape|);
    if p1.None? || p2.None? || p1.value == p2.value {
      return None;
    }
    var d1, d2 := p1.value, p2.value;
    var diagSize := if offset >= 0 then StridedViews.Min(shape[d1], shape[d2] - offset)
                    else StridedViews.Min(shape[d1] + offset, shape[d2]);
    if diagSize <= 0 {
      return None;
    }
    DiagonalShift(stride[d1], stride[d2], offset);
    var start: nat := v.offset;
    if offset >= 0 {
      start := start + offset * stride[d2];
    } else {
      start := start + (0 - offset) * stride[d1];
    }
    var lo, hi := StridedViews.Min(d1, d2), StridedViews.Max(d1, d2);
    var outShape := Without(Without(shape, hi), lo) + [diagSize as nat];
    var outStride := Without(Without(stride, hi), lo) + [stride[d1] + stride[d2]];
    var meta, ok := NewMeta(outShape, outStride);
    if !ok {
      return None;
    }
    r := NewArray(meta.Value(), start, size);
  }

  method UnsqueezeArray(v: NDArray, dim: int, size: nat) returns (r: Option<NDArray>)
    requires v.layout.Paired()
    ensures r == Made(Apply(v, UnsqueezeOp(dim)), size)
  {
    var meta := new NDArrayMeta();
    meta.shape, meta.stride := v.layout.shape, v.layout.stride;
    var ok := meta.Unsqueeze(dim);
    if !ok {
      return None;
    }
    r := NewArray(meta.Value(), v.offset, size);
  }

  method SqueezeArray(v: NDArray, size: nat) returns (r: Option<NDArray>)
    requires v.layout.Paired()
    ensures r == Made(Apply(v, SqueezeOp), size)
  {
    var meta := new NDArrayMeta();
    meta.shape, meta.stride := v.layout.shape, v.layout.stride;
    meta.Squeeze();
    r := NewArray(meta.Value(), v.offset, size);
  }

  method SqueezeArrayAt(v: NDArray, dim: int, size: nat) returns (r: Option<NDArray>)
    requires v.layout.Paired()
    ensures r == Made(Apply(v, SqueezeAtOp(dim)), size)
  {
    var meta := new NDArrayMeta();
    meta.shape, meta.stride := v.layout.shape, v.layout.stride;
    var ok := meta.SqueezeAt(dim);
    if !ok {
      return None;
    }
    r := NewArray(meta.Value(), v.offset, size);
  }

  /** One operation of a chain, as the runtime performs it. */
  method ApplyArray(v: NDArray, op: ViewOp, size: nat) returns (r: Option<NDArray>)
    requires v.layout.Paired() && (op.PermuteOp? ==> |op.axes| >= |v.layout.shape|)
    ensures r == Made(Apply(v, op), size)
  {
    match op {
      case PermuteOp(axes) => r := PermuteArray(v, axes, size);
      case MoveDimOp(src, dst) => r := MoveDimArray(v, src, dst, size);
      case SqueezeOp => r := SqueezeArray(v, size);
      case SqueezeAtOp(dim) => r := SqueezeArrayAt(v, dim, size);
      case UnsqueezeOp(dim) => r := UnsqueezeArray(v, dim, size);
      case SliceOp(begin, want) => r := SliceArray(v, begin, want, size);
      case DiagonalOp(dim1, dim2, offset) => r := DiagonalArray(v, dim1, dim2, offset, size);
    }
  }
}
