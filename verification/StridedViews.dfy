/**
 Views that share storage: which element of its input every index of a view reads, and that
 views stay inside the base array without aliasing.
 */
module StridedViews {
  import opened Collections
  import opened MixedRadix
  import opened Strides
  import opened NDArrayMetas

  /** A handle: layout and offset into a storage, both in elements. */
  datatype NDArray = NDArray(layout: Layout, offset: nat)

  /** Where the element at an index lies in the storage. */
  function Address(v: NDArray, idx: seq<nat>): int
    requires v.layout.Paired() && |idx| == |v.layout.shape|
  {
    v.offset + Dot(idx, v.layout.stride)
  }

  ghost predicate Within(v: NDArray, idx: seq<nat>) {
    InBase(v.layout.shape, idx)
  }

  /** Index `idx` of the view reads what `from` reads in the input. */
  ghost predicate Reads(v: NDArray, idx: seq<nat>, input: NDArray, from: seq<nat>) {
    && v.layout.Paired() && input.layout.Paired() && |idx| == |v.layout.shape|
    && Within(input, from) && Address(v, idx) == Address(input, from)
  }

  /** All addresses lie in [lo, hi), and distinct indices have distinct addresses. */
  ghost predicate Safe(v: NDArray, lo: int, hi: int) {
    && v.layout.Paired()
    && (forall idx: seq<nat> | Within(v, idx) :: lo <= Address(v, idx) < hi)
    && (forall i: seq<nat>, j: seq<nat> | Within(v, i) && Within(v, j) && Address(v, i) == Address(v, j) :: i == j)
  }

  ghost predicate NonEmpty(v: NDArray) {
    AllPos(v.layout.shape)
  }

  /** The check of the array's constructor, in elements. */
  predicate StorageSuffices(v: NDArray, size: nat) {
    v.offset + Prod(v.layout.shape) <= size
  }

  // ---------- the view operations ----------

  ghost function Permute(v: NDArray, axes: seq<int>): Option<NDArray>
    requires v.layout.Paired()
  {
    if |v.layout.shape| > HT_MAX_NDIM || PermutedLayout(v.layout, axes).None? then None
    else Some(NDArray(PermutedLayout(v.layout, axes).value, v.offset))
  }

  /** A permutation given by a list of axes that may go on after one for each dimension. */
  ghost function PermuteBy(v: NDArray, axes: seq<int>): Option<NDArray>
    requires v.layout.Paired()
  {
    if |axes| < |v.layout.shape| || !AxesParse(axes, |v.layout.shape|) then None
    else Permute(v, axes[..|v.layout.shape|])
  }

  lemma PermuteByAll(v: NDArray, axes: seq<int>)
    requires v.layout.Paired() && Permutation(axes, |v.layout.shape|)
    ensures PermuteBy(v, axes) == Permute(v, axes)
  {
    assert axes[..|v.layout.shape|] == axes;
  }

  /** The axes 0 .. n with `src` taken out and put back at `dst`. */
  function MoveAxes(n: nat, src: nat, dst: nat): seq<int>
    requires src < n && dst < n
  {
    With(Without(seq(n, i => i), src), dst, src)
  }

  ghost function MoveDim(v: NDArray, src: int, dst: int): Option<NDArray>
    requires v.layout.Paired()
  {
    var s, d := ParseAxis(src, |v.layout.shape|), ParseAxis(dst, |v.layout.shape|);
    if s.None? || d.None? then None else Permute(v, MoveAxes(|v.layout.shape|, s.value, d.value))
  }

  /** Where a slice starts and ends along one dimension of size `n`, after clamping. */
  function SliceStart(begin: int, n: nat): (r: nat)
    ensures r <= n
    ensures 0 <= begin <= n ==> r == begin
    ensures 0 - n <= begin < 0 ==> r == begin + n
    ensures begin > n ==> r == n
    ensures begin < 0 - n ==> r == 0
  {
    var b := if begin < 0 then begin + n else begin;
    if b < 0 then 0 else if b >= n then n else b
  }

  function SliceEnd(begin: int, len: int, n: nat): (r: nat)
    ensures SliceStart(begin, n) <= r <= n
  {
    var e := if begin + len < 0 then begin + len + n else begin + len;
    if e < SliceStart(begin, n) then SliceStart(begin, n) else if e >= n then n else e
  }

  function Starts(begin: seq<int>, shape: seq<nat>): (r: seq<nat>)
    requires |begin| == |shape|
    ensures |r| == |shape| && forall i | 0 <= i < |r| :: r[i] == SliceStart(begin[i], shape[i])
  {
    seq(|shape|, i requires 0 <= i < |shape| => SliceStart(begin[i], shape[i]))
  }

  function SliceShape(begin: seq<int>, want: seq<int>, shape: seq<nat>): (r: seq<nat>)
    requires |begin| == |shape| == |want|
    ensures |r| == |shape|
    ensures forall i | 0 <= i < |r| :: r[i] == SliceEnd(begin[i], want[i], shape[i]) - SliceStart(begin[i], shape[i])
  {
    seq(|shape|, i requires 0 <= i < |shape| => SliceEnd(begin[i], want[i], shape[i]) - SliceStart(begin[i], shape[i]))
  }

  ghost function Slice(v: NDArray, begin: seq<int>, want: seq<int>): Option<NDArray>
    requires v.layout.Paired()
  {
    if |begin| != |v.layout.shape| || |want| != |v.layout.shape| || |want| > HT_MAX_NDIM then None else
      var starts := Starts(begin, v.layout.shape);
      DotNat(starts, v.layout.stride);
      Some(NDArray(Layout(SliceShape(begin, want, v.layout.shape), v.layout.stride),
                   if Prod(v.layout.shape) == 0 then 0 else v.offset + Dot(starts, v.layout.stride)))
  }

  /** How far the diagonal reaches, and where it starts along its two dimensions. */
  function DiagonalSize(n1: nat, n2: nat, offset: int): int {
    if offset >= 0 then Min(n1, n2 - offset) else Min(n1 + offset, n2)
  }

  function Min(a: int, b: int): int {
    if a < b then a else b
  }

  function Max(a: int, b: int): int {
    if a < b then b else a
  }

  ghost function Diagonal(v: NDArray, dim1: int, dim2: int, offset: int): Option<NDArray>
    requires v.layout.Paired()
  {
    var n := |v.layout.shape|;
    var d1, d2 := ParseAxis(dim1, n), ParseAxis(dim2, n);
    if d1.None? || d2.None? || d1.value == d2.value then None else
      DiagonalOf(v, d1.value, d2.value, offset)
  }

  ghost function DiagonalOf(v: NDArray, d1: nat, d2: nat, offset: int): Option<NDArray>
    requires v.layout.Paired() && d1 != d2 && d1 < |v.layout.shape| && d2 < |v.layout.shape|
  {
    var sh, st := v.layout.shape, v.layout.stride;
    var size := DiagonalSize(sh[d1], sh[d2], offset);
    if size <= 0 || |sh| - 1 > HT_MAX_NDIM then None else
      var lo, hi := Min(d1, d2), Max(d1, d2);
      DiagonalShift(st[d1], st[d2], offset);
      var shape := Without(Without(sh, hi), lo) + [size as nat];
      var stride := Without(Without(st, hi), lo) + [st[d1] + st[d2]];
      Some(NDArray(Layout(shape, stride),
                   v.offset + if offset >= 0 then offset * st[d2] else (0 - offset) * st[d1]))
  }

  lemma DiagonalShift(s1: nat, s2: nat, offset: int)
    ensures offset >= 0 ==> offset * s2 >= 0
    ensures offset < 0 ==> (0 - offset) * s1 >= 0
  {
  }

  lemma {:induction false} DotNat(xs: seq<nat>, ys: seq<nat>)
    requires |xs| == |ys|
    ensures Dot(xs, ys) >= 0
  {
    if xs != [] {
      DotNat(xs[..|xs| - 1], ys[..|ys| - 1]);
    }
  }

  // ---------- what each view reads ----------

  /** Coordinate `i` of a permuted view is coordinate `axes[i]` of its input. */
  lemma PermuteReads(v: NDArray, axes: seq<int>, idx: seq<nat>)
    requires v.layout.Paired() && Permute(v, axes).Some? && Within(Permute(v, axes).value, idx)
    ensures Reads(Permute(v, axes).value, idx, v, Unpermuted(idx, axes))
  {
    PermutedWithin(v.layout.shape, axes, idx);
    hide Dot, NoDup, Permuted, Unpermuted;
    DotPermuted(Unpermuted(idx, axes), v.layout.stride, axes);
  }

  lemma PermutedWithin(shape: seq<nat>, axes: seq<int>, idx: seq<nat>)
    requires Permutation(axes, |shape|) && InBase(Permuted(shape, axes), idx)
    ensures InBase(shape, Unpermuted(idx, axes))
  {
    var from := Unpermuted(idx, axes);
    forall j | 0 <= j < |from| ensures from[j] < shape[j] {
      var i := IndexOf(axes, j);
      assert idx[i] < Permuted(shape, axes)[i];
    }
  }

  lemma PermuteSafe(v: NDArray, axes: seq<int>, lo: int, hi: int)
    requires Safe(v, lo, hi) && Permute(v, axes).Some?
    ensures Safe(Permute(v, axes).value, lo, hi)
  {
    var w := Permute(v, axes).value;
    forall idx: seq<nat> | Within(w, idx) ensures lo <= Address(w, idx) < hi {
      PermuteReads(v, axes, idx);
    }
    forall i: seq<nat>, j: seq<nat> | Within(w, i) && Within(w, j) && Address(w, i) == Address(w, j) ensures i == j {
      PermuteReads(v, axes, i);
      PermuteReads(v, axes, j);
      assert Permuted(Unpermuted(i, axes), axes) == Permuted(Unpermuted(j, axes), axes);
    }
  }

  /** Moving a dimension is a permutation: the others keep their order. */
  lemma MoveAxesPermutes(n: nat, src: nat, dst: nat)
    requires src < n && dst < n
    ensures Permutation(MoveAxes(n, src, dst), n)
    ensures MoveAxes(n, src, dst)[dst] == src && Without(MoveAxes(n, src, dst), dst) == Without(seq(n, i => i), src)
  {
    var rest, axes := Without(seq(n, i => i), src), MoveAxes(n, src, dst);
    RestAt(n, src, rest);
    forall i | 0 <= i < n ensures axes[i] == if i == dst then src else rest[if i < dst then i else i - 1] { }
    MovedIsPermutation(n, src, dst, rest, axes);
  }

  lemma RestAt(n: nat, src: nat, rest: seq<int>)
    requires src < n && rest == Without(seq(n, i => i), src)
    ensures |rest| == n - 1 && forall i | 0 <= i < n - 1 :: rest[i] == if i < src then i else i + 1
  {
  }

  lemma MovedIsPermutation(n: nat, src: nat, dst: nat, rest: seq<int>, axes: seq<int>)
    requires src < n && dst < n && |rest| == n - 1 && |axes| == n
    requires forall i | 0 <= i < n - 1 :: rest[i] == if i < src then i else i + 1
    requires forall i | 0 <= i < n :: axes[i] == if i == dst then src else rest[if i < dst then i else i - 1]
    ensures Permutation(axes, n)
  {
  }

  /** A dimension of size 1 can be put in or taken out without moving anything. */
  lemma UnsqueezeReads(v: NDArray, dim: int, idx: seq<nat>)
    requires v.layout.Paired() && Unsqueezed(v.layout, dim).Some?
    requires Within(NDArray(Unsqueezed(v.layout, dim).value, v.offset), idx)
    ensures Reads(NDArray(Unsqueezed(v.layout, dim).value, v.offset), idx, v,
                  Without(idx, ParseAxis(dim, |v.layout.shape| + 1).value))
    ensures var d := ParseAxis(dim, |v.layout.shape| + 1).value; idx == With(Without(idx, d), d, 0)
  {
    hide Dot, With, Without;
    var d := ParseAxis(dim, |v.layout.shape| + 1).value;
    var w := Unsqueezed(v.layout, dim).value;
    assert idx[d] < w.shape[d];
    WithWithout(idx, d);
    InBaseWith(v.layout.shape, Without(idx, d), d, 1, 0);
    DotWith(Without(idx, d), v.layout.stride, d, 0, w.stride[d]);
  }

  lemma UnsqueezeSafe(v: NDArray, dim: int, lo: int, hi: int)
    requires Safe(v, lo, hi) && Unsqueezed(v.layout, dim).Some?
    ensures Safe(NDArray(Unsqueezed(v.layout, dim).value, v.offset), lo, hi)
  {
    var w := NDArray(Unsqueezed(v.layout, dim).value, v.offset);
    forall idx: seq<nat> | Within(w, idx) ensures lo <= Address(w, idx) < hi {
      UnsqueezeReads(v, dim, idx);
    }
    forall i: seq<nat>, j: seq<nat> | Within(w, i) && Within(w, j) && Address(w, i) == Address(w, j) ensures i == j {
      UnsqueezeReads(v, dim, i);
      UnsqueezeReads(v, dim, j);
    }
  }

  lemma SqueezeAtReads(v: NDArray, d: nat, idx: seq<nat>)
    requires v.layout.Paired() && d < |v.layout.shape| && v.layout.shape[d] == 1
    requires Within(NDArray(Layout(Without(v.layout.shape, d), Without(v.layout.stride, d)), v.offset), idx)
    ensures Reads(
              NDArray(Layout(Without(v.layout.shape, d), Without(v.layout.stride, d)), v.offset), idx,
              v, With(idx, d, 0))
  {
    WithWithout(v.layout.shape, d);
    WithWithout(v.layout.stride, d);
    InBaseWith(Without(v.layout.shape, d), idx, d, 1, 0);
    DotWith(idx, Without(v.layout.stride, d), d, 0, v.layout.stride[d]);
  }

  lemma SqueezeAtSafe(v: NDArray, dim: int, lo: int, hi: int)
    requires Safe(v, lo, hi) && SqueezedAt(v.layout, dim).Some?
    ensures Safe(NDArray(SqueezedAt(v.layout, dim).value, v.offset), lo, hi)
  {
    var d := ParseAxis(dim, |v.layout.shape|).value;
    if v.layout.shape[d] == 1 {
      var w := NDArray(SqueezedAt(v.layout, dim).value, v.offset);
      forall idx: seq<nat> | Within(w, idx) ensures lo <= Address(w, idx) < hi {
        SqueezeAtReads(v, d, idx);
      }
      forall i: seq<nat>, j: seq<nat> | Within(w, i) && Within(w, j) && Address(w, i) == Address(w, j) ensures i == j {
        SqueezeAtReads(v, d, i);
        SqueezeAtReads(v, d, j);
        assert Without(With(i, d, 0), d) == Without(With(j, d, 0), d);
      }
    }
  }

  /** The index of the input that a fully squeezed index stands for: zeros where dimensions vanished. */
  function Refilled(shape: seq<nat>, idx: seq<nat>): (r: seq<nat>)
    requires |idx| == Kept(shape)
    ensures |r| == |shape|
  {
    if shape == [] then [] else
      var k := |shape| - 1;
      if shape[k] == 1 then Refilled(shape[..k], idx) + [0]
      else Refilled(shape[..k], idx[..|idx| - 1]) + [idx[|idx| - 1]]
  }

  function Kept(shape: seq<nat>): nat {
    if shape == [] then 0 else Kept(shape[..|shape| - 1]) + if shape[|shape| - 1] == 1 then 0 else 1
  }

  lemma {:induction false} SqueezeReads(l: Layout, idx: seq<nat>)
    requires l.Paired() && InBase(Squeezed(l).shape, idx)
    ensures |idx| == Kept(l.shape) && InBase(l.shape, Refilled(l.shape, idx))
    ensures Dot(Refilled(l.shape, idx), l.stride) == Dot(idx, Squeezed(l).stride)
    decreases |l.shape|
  {
    if l.shape != [] {
      var k := |l.shape| - 1;
      var most := Layout(l.shape[..k], l.stride[..k]);
      assert l.shape == most.shape + [l.shape[k]] && l.stride == most.stride + [l.stride[k]];
      if l.shape[k] == 1 {
        SqueezeReads(most, idx);
        assert Refilled(l.shape, idx) == Refilled(most.shape, idx) + [0];
        hide Refilled, Squeezed, Dot;
        LastCoordinate(most.shape, 1, Refilled(most.shape, idx), 0, most.stride, l.stride[k]);
      } else {
        var m := |idx| - 1;
        var sq := Squeezed(most);
        assert Squeezed(l) == Layout(sq.shape + [l.shape[k]], sq.stride + [l.stride[k]]);
        assert idx == idx[..m] + [idx[m]];
        LastInBase(sq.shape, l.shape[k], idx[..m], idx[m]);
        SqueezeReads(most, idx[..m]);
        assert Refilled(l.shape, idx) == Refilled(most.shape, idx[..m]) + [idx[m]];
        hide Refilled, Squeezed, Dot;
        LastCoordinate(most.shape, l.shape[k], Refilled(most.shape, idx[..m]), idx[m], most.stride, l.stride[k]);
        LastCoordinate(sq.shape, l.shape[k], idx[..m], idx[m], sq.stride, l.stride[k]);
      }
    }
  }

  lemma LastInBase(shape: seq<nat>, n: nat, idx: seq<nat>, x: nat)
    requires |shape| == |idx|
    ensures InBase(shape + [n], idx + [x]) <==> InBase(shape, idx) && x < n
  {
    var s, d := shape + [n], idx + [x];
    forall i | 0 <= i < |shape| ensures (d[i] < s[i]) <==> (idx[i] < shape[i]) { }
    if InBase(s, d) {
      assert d[|idx|] < s[|idx|];
      forall i | 0 <= i < |shape| ensures idx[i] < shape[i] { assert d[i] < s[i]; }
    }
  }

  lemma LastCoordinate(shape: seq<nat>, n: nat, idx: seq<nat>, x: nat, stride: seq<nat>, st: nat)
    requires |shape| == |idx| == |stride|
    ensures InBase(shape + [n], idx + [x]) <==> InBase(shape, idx) && x < n
    ensures Dot(idx + [x], stride + [st]) == Dot(idx, stride) + x * st
  {
    LastInBase(shape, n, idx, x);
    assert (idx + [x])[..|idx|] == idx && (stride + [st])[..|idx|] == stride;
  }

  lemma {:induction false} RefilledInjective(shape: seq<nat>, i: seq<nat>, j: seq<nat>)
    requires |i| == |j| == Kept(shape) && Refilled(shape, i) == Refilled(shape, j)
    ensures i == j
  {
    if shape != [] {
      var k := |shape| - 1;
      if shape[k] == 1 {
        assert Refilled(shape, i)[..k] == Refilled(shape[..k], i) && Refilled(shape, j)[..k] == Refilled(shape[..k], j);
        RefilledInjective(shape[..k], i, j);
      } else {
        var m := |i| - 1;
        assert Refilled(shape, i)[..k] == Refilled(shape[..k], i[..m]);
        assert Refilled(shape, j)[..k] == Refilled(shape[..k], j[..m]);
        RefilledInjective(shape[..k], i[..m], j[..m]);
        assert Refilled(shape, i)[k] == i[m] && Refilled(shape, j)[k] == j[m];
        assert i == i[..m] + [i[m]] && j == j[..m] + [j[m]];
      }
    }
  }

  lemma SqueezeSafe(v: NDArray, lo: int, hi: int)
    requires Safe(v, lo, hi)
    ensures Safe(NDArray(Squeezed(v.layout), v.offset), lo, hi)
  {
    var w := NDArray(Squeezed(v.layout), v.offset);
    forall idx: seq<nat> | Within(w, idx) ensures lo <= Address(w, idx) < hi {
      SqueezeReads(v.layout, idx);
      assert Within(v, Refilled(v.layout.shape, idx));
    }
    forall i: seq<nat>, j: seq<nat> | Within(w, i) && Within(w, j) && Address(w, i) == Address(w, j) ensures i == j {
      SqueezeReads(v.layout, i);
      SqueezeReads(v.layout, j);
      assert Within(v, Refilled(v.layout.shape, i)) && Within(v, Refilled(v.layout.shape, j));
      RefilledInjective(v.layout.shape, i, j);
    }
  }

  function Shifted(idx: seq<nat>, shift: seq<nat>): (r: seq<nat>)
    requires |idx| == |shift|
    ensures |r| == |idx| && forall i | 0 <= i < |r| :: r[i] == idx[i] + shift[i]
  {
    seq(|idx|, i requires 0 <= i < |idx| => idx[i] + shift[i])
  }

  lemma {:induction false} DotShifted(idx: seq<nat>, shift: seq<nat>, ys: seq<nat>)
    requires |idx| == |shift| == |ys|
    ensures Dot(Shifted(idx, shift), ys) == Dot(idx, ys) + Dot(shift, ys)
  {
    if idx != [] {
      var k := |idx| - 1;
      DotShifted(idx[..k], shift[..k], ys[..k]);
      assert Shifted(idx, shift)[..k] == Shifted(idx[..k], shift[..k]);
      MulDist(idx[k], shift[k], ys[k]);
    }
  }

  /** A slice reads its input shifted by the clamped start. */
  lemma SliceReads(v: NDArray, begin: seq<int>, want: seq<int>, idx: seq<nat>)
    requires v.layout.Paired() && Slice(v, begin, want).Some? && Within(Slice(v, begin, want).value, idx)
    ensures |idx| == |v.layout.shape| == |begin|
    ensures Reads(Slice(v, begin, want).value, idx, v, Shifted(idx, Starts(begin, v.layout.shape)))
  {
    var w := Slice(v, begin, want).value;
    var starts := Starts(begin, v.layout.shape);
    forall i | 0 <= i < |idx| ensures starts[i] + idx[i] < v.layout.shape[i] {
      assert idx[i] < w.layout.shape[i];
    }
    ProdPos(v.layout.shape);
    DotShifted(idx, starts, v.layout.stride);
  }

  /**
   A slice inside the array: it has the wanted shape, and index `idx` reads the input at the wanted
   beginning plus `idx`.
   */
  lemma SliceInside(v: NDArray, begin: seq<nat>, want: seq<nat>)
    requires v.layout.Paired() && |begin| == |want| == |v.layout.shape| <= HT_MAX_NDIM
    requires forall i | 0 <= i < |begin| :: begin[i] + want[i] <= v.layout.shape[i]
    ensures Slice(v, begin, want).Some? && Slice(v, begin, want).value.layout.shape == want
    ensures forall idx: seq<nat> | InBase(want, idx) :: Reads(Slice(v, begin, want).value, idx, v, Shifted(idx, begin))
  {
    var w := Slice(v, begin, want).value;
    assert Starts(begin, v.layout.shape) == begin;
    assert w.layout.shape == want;
    forall idx: seq<nat> | InBase(want, idx) ensures Reads(w, idx, v, Shifted(idx, begin)) {
      SliceReads(v, begin, want, idx);
    }
  }

  /** A coordinate of a dimension of size `n` between two ends, which are raised by the size when negative. */
  ghost predicate Between(c: int, begin: int, end: int, n: nat) {
    && 0 <= c < n
    && (if begin < 0 then begin + n else begin) <= c < (if end < 0 then end + n else end)
  }

  /** The coordinates from `start` on, `size` of them, are those between the two ends. */
  ghost predicate Takes(start: nat, size: nat, begin: int, end: int, n: nat) {
    forall c: int :: Between(c, begin, end, n) <==> start <= c < start + size
  }

  /**
   In general the coordinates read along a dimension are those between the beginning and the beginning
   plus the length, each raised by the size when negative, that are coordinates at all.
   */
  lemma SliceReadsExactly(v: NDArray, begin: seq<int>, want: seq<int>) returns (starts: seq<nat>)
    requires v.layout.Paired() && Slice(v, begin, want).Some?
    ensures |begin| == |want| == |starts| == |v.layout.shape| == |Slice(v, begin, want).value.layout.shape|
    ensures forall idx: seq<nat> | Within(Slice(v, begin, want).value, idx) ::
              Reads(Slice(v, begin, want).value, idx, v, Shifted(idx, starts))
    ensures forall i | 0 <= i < |starts| ::
              Takes(
                starts[i], Slice(v, begin, want).value.layout.shape[i], begin[i], begin[i] + want[i],
                v.layout.shape[i])
  {
    starts := Starts(begin, v.layout.shape);
    forall idx: seq<nat> | Within(Slice(v, begin, want).value, idx)
      ensures Reads(Slice(v, begin, want).value, idx, v, Shifted(idx, starts))
    {
      SliceReads(v, begin, want, idx);
    }
  }

  lemma SliceSafe(v: NDArray, begin: seq<int>, want: seq<int>, lo: int, hi: int)
    requires Safe(v, lo, hi) && Slice(v, begin, want).Some?
    ensures Safe(Slice(v, begin, want).value, lo, hi)
  {
    var w := Slice(v, begin, want).value;
    forall idx: seq<nat> | Within(w, idx) ensures lo <= Address(w, idx) < hi {
      SliceReads(v, begin, want, idx);
    }
    forall i: seq<nat>, j: seq<nat> | Within(w, i) && Within(w, j) && Address(w, i) == Address(w, j) ensures i == j {
      SliceReads(v, begin, want, i);
      SliceReads(v, begin, want, j);
      var starts := Starts(begin, v.layout.shape);
      forall k | 0 <= k < |i| ensures i[k] == j[k] {
        assert Shifted(i, starts)[k] == Shifted(j, starts)[k];
      }
    }
  }

  /** The index of the input that a diagonal index stands for: the last coordinate runs along both dimensions. */
  function OnDiagonal(idx: seq<nat>, d1: nat, d2: nat, offset: int): (r: seq<nat>)
    requires |idx| >= 1 && d1 != d2 && d1 <= |idx| && d2 <= |idx|
    ensures |r| == |idx| + 1
  {
    var n := |idx| - 1;
    var k := idx[n];
    var c1: nat := k + if offset < 0 then 0 - offset else 0;
    var c2: nat := k + if offset >= 0 then offset else 0;
    With<nat>(With<nat>(idx[..n], Min(d1, d2), if d1 < d2 then c1 else c2), Max(d1, d2), if d1 < d2 then c2 else c1)
  }

  lemma DiagonalReads(v: NDArray, d1: nat, d2: nat, offset: int, idx: seq<nat>)
    requires v.layout.Paired() && d1 != d2 && d1 < |v.layout.shape| && d2 < |v.layout.shape|
    requires DiagonalOf(v, d1, d2, offset).Some? && Within(DiagonalOf(v, d1, d2, offset).value, idx)
    ensures |idx| == |v.layout.shape| - 1
    ensures Reads(DiagonalOf(v, d1, d2, offset).value, idx, v, OnDiagonal(idx, d1, d2, offset))
  {
    hide With, Without, Dot;
    var sh, st, w := v.layout.shape, v.layout.stride, DiagonalOf(v, d1, d2, offset).value;
    var lo, hi, n := Min(d1, d2), Max(d1, d2), |idx| - 1;
    var k, size: nat := idx[n], DiagonalSize(sh[d1], sh[d2], offset);
    var c1: nat, c2: nat := k + (if offset < 0 then 0 - offset else 0), k + (if offset >= 0 then offset else 0);
    var a, b := if d1 < d2 then c1 else c2, if d1 < d2 then c2 else c1;
    assert idx == idx[..n] + [k];
    var rsh, rst := Without(Without(sh, hi), lo), Without(Without(st, hi), lo);
    LastCoordinate(rsh, size, idx[..n], k, rst, st[d1] + st[d2]);
    InsertTwo(sh, st, lo, hi, idx[..n], a, b);
    DiagonalSums(k, offset, st[d1], st[d2]);
  }

  /** Two coordinates put back where two dimensions were taken out. */
  lemma InsertTwo(sh: seq<nat>, st: seq<nat>, lo: nat, hi: nat, rest: seq<nat>, a: nat, b: nat)
    requires lo < hi < |sh| == |st| && |rest| == |sh| - 2
    ensures InBase(sh, With(With(rest, lo, a), hi, b)) <==>
            InBase(Without(Without(sh, hi), lo), rest) && a < sh[lo] && b < sh[hi]
    ensures Dot(With(With(rest, lo, a), hi, b), st) == Dot(rest, Without(Without(st, hi), lo)) + a * st[lo] + b * st[hi]
  {
    TwoBack(sh, lo, hi);
    TwoBack(st, lo, hi);
    hide With, Without, Dot;
    var rsh, rst := Without(Without(sh, hi), lo), Without(Without(st, hi), lo);
    InBaseWith(rsh, rest, lo, sh[lo], a);
    InBaseWith(With(rsh, lo, sh[lo]), With(rest, lo, a), hi, sh[hi], b);
    DotWith(rest, rst, lo, a, st[lo]);
    DotWith(With(rest, lo, a), With(rst, lo, st[lo]), hi, b, st[hi]);
  }

  lemma TwoBack<T>(s: seq<T>, lo: nat, hi: nat)
    requires lo < hi < |s|
    ensures With(With(Without(Without(s, hi), lo), lo, s[lo]), hi, s[hi]) == s
  {
    WithWithout(Without(s, hi), lo);
    assert Without(s, hi)[lo] == s[lo];
    WithWithout(s, hi);
  }

  lemma DiagonalSums(k: nat, offset: int, s1: nat, s2: nat)
    ensures offset >= 0 ==> k * (s1 + s2) + offset * s2 == k * s1 + (k + offset) * s2
    ensures offset < 0 ==> k * (s1 + s2) + (0 - offset) * s1 == (k + (0 - offset)) * s1 + k * s2
  {
    MulDist(s1, s2, k);
    MulComm(k, s1 + s2);
    MulComm(k, s1);
    MulComm(k, s2);
    MulDist(k, offset, s2);
    MulDist(k, 0 - offset, s1);
  }

  lemma DiagonalSafe(v: NDArray, d1: nat, d2: nat, offset: int, lo: int, hi: int)
    requires Safe(v, lo, hi) && d1 != d2 && d1 < |v.layout.shape| && d2 < |v.layout.shape|
    requires DiagonalOf(v, d1, d2, offset).Some?
    ensures Safe(DiagonalOf(v, d1, d2, offset).value, lo, hi)
  {
    var w := DiagonalOf(v, d1, d2, offset).value;
    forall idx: seq<nat> | Within(w, idx) ensures lo <= Address(w, idx) < hi {
      DiagonalReads(v, d1, d2, offset, idx);
    }
    forall i: seq<nat>, j: seq<nat> | Within(w, i) && Within(w, j) && Address(w, i) == Address(w, j) ensures i == j {
      DiagonalReads(v, d1, d2, offset, i);
      DiagonalReads(v, d1, d2, offset, j);
      DiagonalInjective(i, j, d1, d2, offset);
    }
  }

  lemma DiagonalInjective(i: seq<nat>, j: seq<nat>, d1: nat, d2: nat, offset: int)
    requires |i| == |j| >= 1 && d1 != d2 && d1 <= |i| && d2 <= |i|
    requires OnDiagonal(i, d1, d2, offset) == OnDiagonal(j, d1, d2, offset)
    ensures i == j
  {
    var n, lo, hi := |i| - 1, Min(d1, d2), Max(d1, d2);
    var a, b := OnDiagonal(i, d1, d2, offset), OnDiagonal(j, d1, d2, offset);
    assert Without(Without(a, hi), lo) == i[..n] && Without(Without(b, hi), lo) == j[..n];
    assert a[hi] == b[hi];
    assert i == i[..n] + [i[n]] && j == j[..n] + [j[n]];
  }

  /** Step `k` from the given coordinates stays inside both dimensions. */
  ghost predicate OnBoth(k: nat, c1: nat, n1: nat, c2: nat, n2: nat) {
    c1 + k < n1 && c2 + k < n2
  }

  /** The diagonal reaches exactly as far as both of its dimensions do. */
  lemma DiagonalReaches(v: NDArray, d1: nat, d2: nat, offset: int)
    requires v.layout.Paired() && d1 != d2 && d1 < |v.layout.shape| && d2 < |v.layout.shape|
    requires |v.layout.shape| - 1 <= HT_MAX_NDIM
    ensures var c1, c2 := if offset < 0 then 0 - offset else 0, if offset >= 0 then offset else 0;
            && (DiagonalOf(v, d1, d2, offset).Some? <==> c1 < v.layout.shape[d1] && c2 < v.layout.shape[d2])
            && (DiagonalOf(v, d1, d2, offset).Some? ==>
                  var sh := DiagonalOf(v, d1, d2, offset).value.layout.shape;
                  forall k: nat :: OnBoth(k, c1, v.layout.shape[d1], c2, v.layout.shape[d2]) <==> k < sh[|sh| - 1])
  {
    hide With, Without, Dot;
  }

  /** The coordinates a diagonal index stands for: both dimensions run with the last one, the others are kept. */
  lemma OnDiagonalAt(idx: seq<nat>, d1: nat, d2: nat, offset: int)
    requires |idx| >= 1 && d1 != d2 && d1 <= |idx| && d2 <= |idx|
    ensures var from, n := OnDiagonal(idx, d1, d2, offset), |idx| - 1;
            && from[d1] == idx[n] + (if offset < 0 then 0 - offset else 0)
            && from[d2] == idx[n] + (if offset >= 0 then offset else 0)
            && Without(Without(from, Max(d1, d2)), Min(d1, d2)) == idx[..n]
  {
  }

  // ---------- what squeezing keeps ----------

  /** The dimensions of a size other than 1, ascending. */
  function KeptPlaces(shape: seq<nat>): (ps: seq<nat>)
    ensures |ps| == Kept(shape)
    ensures forall i | 0 <= i < |ps| :: ps[i] < |shape| && shape[ps[i]] != 1
    ensures forall i, j | 0 <= i < j < |ps| :: ps[i] < ps[j]
    ensures forall p: nat | p < |shape| && shape[p] != 1 :: p in ps
  {
    if shape == [] then [] else
      var k := |shape| - 1;
      var most := KeptPlaces(shape[..k]);
      if shape[k] == 1 then most else most + [k]
  }

  /** Squeezing keeps exactly those, in order; an index puts its coordinates there and 0 elsewhere. */
  ghost predicate KeepsPlaces(l: Layout, r: Layout, ps: seq<nat>, idx: seq<nat>, from: seq<nat>) {
    && |l.stride| == |l.shape| == |from| && |r.shape| == |r.stride| == |ps| == |idx|
    && (forall i | 0 <= i < |ps| :: ps[i] < |l.shape|)
    && (forall i | 0 <= i < |ps| :: r.shape[i] == l.shape[ps[i]] && r.stride[i] == l.stride[ps[i]])
    && (forall i | 0 <= i < |ps| :: from[ps[i]] == idx[i])
    && (forall j | 0 <= j < |l.shape| && l.shape[j] == 1 :: from[j] == 0)
  }

  lemma {:induction false} SqueezedKeeps(l: Layout, idx: seq<nat>)
    requires l.Paired() && |idx| == Kept(l.shape)
    ensures KeepsPlaces(l, Squeezed(l), KeptPlaces(l.shape), idx, Refilled(l.shape, idx))
    decreases |l.shape|
  {
    if l.shape == [] { return; }
    var k := |l.shape| - 1;
    var most := Layout(l.shape[..k], l.stride[..k]);
    assert l == Layout(most.shape + [l.shape[k]], most.stride + [l.stride[k]]);
    var rest := if l.shape[k] == 1 then idx else idx[..|idx| - 1];
    SqueezedKeeps(most, rest);
    SqueezeStep(l, idx, k, most, rest);
    hide *;
    if l.shape[k] == 1 {
      DropLast(most, Squeezed(most), KeptPlaces(most.shape), idx, Refilled(most.shape, idx), l.stride[k]);
    } else {
      KeepLast(
        most, Squeezed(most), KeptPlaces(most.shape), rest, Refilled(most.shape, rest), l.shape[k], l.stride[k],
        idx[|idx| - 1]);
    }
  }

  lemma SqueezeStep(l: Layout, idx: seq<nat>, k: nat, most: Layout, rest: seq<nat>)
    requires l.Paired() && |idx| == Kept(l.shape) && k == |l.shape| - 1
    requires most == Layout(l.shape[..k], l.stride[..k])
    requires if l.shape[k] == 1 then rest == idx else |idx| > 0 && rest == idx[..|idx| - 1]
    ensures most.Paired() && |rest| == Kept(most.shape)
    ensures if l.shape[k] == 1 then
              && Squeezed(l) == Squeezed(most) && KeptPlaces(l.shape) == KeptPlaces(most.shape)
              && Refilled(l.shape, idx) == Refilled(most.shape, idx) + [0]
            else
              && Squeezed(l) == Layout(Squeezed(most).shape + [l.shape[k]], Squeezed(most).stride + [l.stride[k]])
              && KeptPlaces(l.shape) == KeptPlaces(most.shape) + [k] && idx == rest + [idx[|idx| - 1]]
              && Refilled(l.shape, idx) == Refilled(most.shape, rest) + [idx[|idx| - 1]]
  {
    SqueezeLast(l, k, most);
    PlacesLast(l.shape, k);
    RefillLast(l.shape, idx, k);
    hide *;
  }

  lemma SqueezeLast(l: Layout, k: nat, most: Layout)
    requires l.Paired() && k == |l.shape| - 1 && most == Layout(l.shape[..k], l.stride[..k])
    ensures most.Paired()
    ensures Squeezed(l) == if l.shape[k] == 1 then Squeezed(most)
                           else Layout(Squeezed(most).shape + [l.shape[k]], Squeezed(most).stride + [l.stride[k]])
  {
  }

  lemma PlacesLast(shape: seq<nat>, k: nat)
    requires k == |shape| - 1
    ensures Kept(shape) == Kept(shape[..k]) + if shape[k] == 1 then 0 else 1
    ensures KeptPlaces(shape) == KeptPlaces(shape[..k]) + if shape[k] == 1 then [] else [k]
  {
  }

  lemma RefillLast(shape: seq<nat>, idx: seq<nat>, k: nat)
    requires |idx| == Kept(shape) && k == |shape| - 1
    ensures shape[k] == 1 ==> |idx| == Kept(shape[..k]) && Refilled(shape, idx) == Refilled(shape[..k], idx) + [0]
    ensures shape[k] != 1 ==>
              && |idx| > 0 && |idx[..|idx| - 1]| == Kept(shape[..k])
              && Refilled(shape, idx) == Refilled(shape[..k], idx[..|idx| - 1]) + [idx[|idx| - 1]]
  {
  }

  lemma DropLast(l: Layout, r: Layout, ps: seq<nat>, idx: seq<nat>, from: seq<nat>, st: nat)
    requires KeepsPlaces(l, r, ps, idx, from)
    ensures KeepsPlaces(Layout(l.shape + [1], l.stride + [st]), r, ps, idx, from + [0])
  {
  }

  lemma KeepLast(
    l: Layout, r: Layout, ps: seq<nat>, idx: seq<nat>, from: seq<nat>, n: nat, st: nat, c: nat)
    requires KeepsPlaces(l, r, ps, idx, from) && n != 1
    ensures KeepsPlaces(
              Layout(l.shape + [n], l.stride + [st]), Layout(r.shape + [n], r.stride + [st]),
              ps + [|l.shape|], idx + [c], from + [c])
  {
  }
}
