/**
 The loops that merge dimensions and plan a local scatter, proved to compute the merging functions.

 Erasing a dimension moves the keys above it down one by one, which is why the first loop needs an
 invariant about a map that is half renamed; the order is collected, sorted, erased from the back and
 renumbered. The last loops compare two layouts and list the dimensions a device has to cut.
 */
module CombineLoops {
  import opened Collections
  import opened DeviceMesh
  import opened DigitMerging
  import opened MeshChecks
  import opened LocalScatter
  import opened DistributedStatesObjects

  // ---------- combine_states ----------

  /** The map while its keys above `s` and below `b` have been moved down by one. */
  ghost function HalfMoved(st: map<int, int>, s: int, b: int, x: int): Option<int> {
    if s < x + 1 < b && x + 1 in st then Some(st[x + 1])
    else if x in st && !(s < x < b) then Some(st[x])
    else None
  }

  ghost predicate IsHalfMoved(now: map<int, int>, st: map<int, int>, s: int, b: int) {
    forall x :: (x in now <==> HalfMoved(st, s, b, x).Some?) && (x in now ==> Some(now[x]) == HalfMoved(st, s, b, x))
  }

  lemma NotMovedYet(st: map<int, int>, s: int)
    requires s >= 0
    ensures IsHalfMoved(st, st, s, 0)
  {
  }

  lemma MoveOne(now: map<int, int>, st: map<int, int>, s: int, b: int, key: int)
    requires IsHalfMoved(now, st, s, b) && s !in st && s >= 0 && b <= key && key in st
    requires forall k :: k in st && b <= k ==> key <= k
    ensures key in now && now[key] == st[key]
    ensures key > s ==> IsHalfMoved((now - {key})[key - 1 := now[key]], st, s, key + 1)
    ensures key <= s ==> IsHalfMoved(now, st, s, key + 1)
  {
  }

  lemma AllMoved(now: map<int, int>, st: map<int, int>, s: int, b: int)
    requires IsHalfMoved(now, st, s, b) && s !in st && s >= 0
    requires forall k :: k in st ==> k < b
    ensures now == RemoveDim(st, s)
  {
    var done := RemoveDim(st, s);
    forall x ensures x in now.Keys <==> x in done.Keys {
      if x in now { assert Lower(if s < x + 1 && x + 1 in st then x + 1 else x, s) == x; }
    }
    assert now.Keys == done.Keys;
    forall x | x in now ensures now[x] == done[x] {
      assert Lower(if s < x + 1 && x + 1 in st then x + 1 else x, s) == x;
    }
  }

  /** Moves every split dimension above `s` down by one, lowest first. */
  method MoveDown(st: map<int, int>, s: int) returns (now: map<int, int>)
    requires s >= 0 && s !in st
    ensures now == RemoveDim(st, s)
  {
    hide Sorted, RemoveDim, IsKeys;
    now := st;
    var keys := SplitKeysOf(st);
    ghost var b := 0;
    NotMovedYet(st, s);
    for j := 0 to |keys|
      invariant IsHalfMoved(now, st, s, b)
      invariant b == if j == 0 then 0 else keys[j - 1] + 1
    {
      hide IsHalfMoved;
      var key := keys[j];
      NextKey(st, keys, j, b);
      MoveOne(now, st, s, b, key);
      if key > s {
        var val := now[key];
        now := now - {key};
        now := now[key - 1 := val];
      }
      b := key + 1;
    }
    LastKey(st, keys, b);
    AllMoved(now, st, s, b);
  }

  ghost predicate IsKeys(st: map<int, int>, keys: seq<int>) {
    keys == Sorted(set k | k in st && k >= 0)
  }

  /** The split dimensions of a map, ascending. */
  method SplitKeysOf(st: map<int, int>) returns (keys: seq<int>)
    ensures IsKeys(st, keys)
  {
    keys := Sorted(set k | k in st && k >= 0);
  }

  lemma NextKey(st: map<int, int>, keys: seq<int>, j: nat, b: int)
    requires IsKeys(st, keys) && j < |keys|
    requires b == if j == 0 then 0 else keys[j - 1] + 1
    ensures b <= keys[j] && keys[j] in st
    ensures forall k :: k in st && b <= k ==> keys[j] <= k
  {
    hide Sorted;
    assert keys[j] in keys by { var x := keys[j]; assert x in keys; }
    if j > 0 {
      var x := keys[j - 1];
      assert x in keys;
    }
    forall k | k in st && b <= k ensures keys[j] <= k {
      if k < 0 { assert false; }
      var i := IndexOf(keys, k);
    }
  }

  lemma LastKey(st: map<int, int>, keys: seq<int>, b: int)
    requires IsKeys(st, keys)
    requires b == if |keys| == 0 then 0 else keys[|keys| - 1] + 1
    ensures forall k :: k in st ==> k < b
  {
    hide Sorted;
    if |keys| > 0 {
      var x := keys[|keys| - 1];
      assert x in keys;
    }
    forall k | k in st ensures k < b {
      if k >= 0 {
        var i := IndexOf(keys, k);
        assert i < |keys| - 1 ==> keys[i] < keys[|keys| - 1];
      }
    }
  }

  lemma RemoveErased(st: map<int, int>, s: int)
    ensures RemoveDim(st - {s}, s) == RemoveDim(st, s)
  {
  }

  /** `combine_states`; an error when the destination is one of the sources. */
  method CombineStates(src: seq<int>, dst: int, oriStates: map<int, int>) returns (res: Option<map<int, int>>)
    requires forall i | 0 <= i < |src| :: src[i] >= -2
    ensures res == CombinedStates(src, dst, oriStates)
  {
    var states, value := oriStates, 1;
    for i := 0 to |src|
      invariant Erased(src[..i], oriStates) == (states, value)
      invariant forall j | 0 <= j < i :: src[j] != dst
    {
      hide RemoveDim;
      var s := src[i];
      assert src[..i + 1][..i] == src[..i];
      if s == dst {
        return None;
      }
      if s == PARTIAL || s == DUPLICATE {
        value := value * At(states, s);
        states := states[s := 1];
      } else {
        RemoveErased(states, s);
        if s in states {
          value := value * states[s];
        }
        states := states - {s};
        states := MoveDown(states, s);
      }
    }
    assert src[..|src|] == src && dst !in src;
    states := MergeValue(src, dst, states, value);
    return Some(states);
  }

  /** The second phase: the destination follows the dimensions moved down, then takes the product. */
  method MergeValue(src: seq<int>, dst: int, states: map<int, int>, value: int) returns (res: map<int, int>)
    ensures res == MergeInto(states, if Special(dst) then dst else Lowered(dst, src), value)
  {
    if dst == PARTIAL || dst == DUPLICATE {
      return states[dst := At(states, dst) * value];
    }
    var d := dst;
    for i := 0 to |src|
      invariant d == Lowered(dst, src[..i])
      invariant dst >= 0 ==> d >= 0
      invariant dst < 0 ==> d == dst
    {
      assert src[..i + 1][..i] == src[..i];
      if src[i] >= 0 && d > src[i] {
        d := d - 1;
      }
    }
    assert src[..|src|] == src;
    return if d !in states then states[d := value] else states[d := states[d] * value];
  }

  // ---------- combine_order ----------

  lemma {:induction false} InsertKeeps(x: int, s: seq<int>, n: int)
    requires 0 <= x < n && forall i | 0 <= i < |s| :: 0 <= s[i] < n
    ensures forall i | 0 <= i < |Insert(x, s)| :: 0 <= Insert(x, s)[i] < n
  {
    if s != [] && x > s[0] {
      InsertKeeps(x, s[1..], n);
    }
  }

  lemma {:induction false} SortKeeps(s: seq<int>, n: int)
    requires forall i | 0 <= i < |s| :: 0 <= s[i] < n
    ensures forall i | 0 <= i < |InsertionSort(s)| :: 0 <= InsertionSort(s)[i] < n
  {
    if s != [] {
      SortKeeps(s[1..], n);
      InsertKeeps(s[0], InsertionSort(s[1..]), n);
    }
  }

  method CollectPositions(dims: seq<int>, order: seq<int>) returns (inds: seq<int>)
    ensures inds == Positions(dims, order)
  {
    hide IndexOf;
    inds := [];
    for i := 0 to |dims|
      invariant inds == Positions(dims[..i], order)
    {
      assert dims[..i + 1][..i] == dims[..i];
      if dims[i] in order {
        inds := inds + [IndexOf(order, dims[i])];
      }
    }
    assert dims[..|dims|] == dims;
  }

  /** Erases the places `p + 1 .. p + n` from the back and writes `dst` at place `p`. */
  method EraseRun(order: seq<int>, p: nat, n: nat, dst: int) returns (res: seq<int>)
    requires n >= 1 && p + n <= |order|
    ensures res == order[..p] + [dst] + order[p + n..]
  {
    res := order;
    var i := n;
    while i > 1
      invariant 1 <= i <= n && res == order[..p + i] + order[p + n..]
    {
      i := i - 1;
      res := res[..p + i] + res[p + i + 1..];
    }
    res := res[p := dst];
  }

  method Renumber(order: seq<int>, src: seq<int>) returns (res: seq<int>)
    ensures res == Renumbered(order, src)
  {
    res := order;
    for i := 0 to |order|
      invariant |res| == |order|
      invariant forall j | 0 <= j < i :: res[j] == if order[j] > 0 then Lowered(order[j], src) else order[j]
      invariant forall j | i <= j < |res| :: res[j] == order[j]
    {
      if res[i] > 0 {
        for k := 0 to |src|
          invariant |res| == |order| && res[i] == Lowered(order[i], src[..k])
          invariant forall j | 0 <= j < i :: res[j] == if order[j] > 0 then Lowered(order[j], src) else order[j]
          invariant forall j | i < j < |res| :: res[j] == order[j]
        {
          assert src[..k + 1][..k] == src[..k];
          if src[k] >= 0 && res[i] > src[k] {
            res := res[i := res[i] - 1];
          }
        }
        assert src[..|src|] == src;
      }
    }
    assert res == Renumbered(order, src);
  }

  /** `combine_order`; an error when the merged dimensions are not side by side. */
  method CombineOrder(src: seq<int>, dst: int, oriOrder: seq<int>) returns (res: Option<seq<int>>)
    ensures res == CombinedOrder(src, dst, oriOrder)
  {
    var inds := CollectPositions(src + [dst], oriOrder);
    SortKeeps(inds, |oriOrder|);
    inds := InsertionSort(inds);
    hide InsertionSort, Positions, Renumbered;
    if inds == [] {
      return Some(oriOrder);
    }
    for i := 1 to |inds|
      invariant forall j | 1 <= j < i :: inds[j] == inds[0] + j
    {
      if inds[i] != inds[0] + i {
        return None;
      }
    }
    assert inds[|inds| - 1] == inds[0] + |inds| - 1;
    var order := EraseRun(oriOrder, inds[0], |inds|, dst);
    order := Renumber(order, src);
    return Some(order);
  }

  // ---------- get_split_dim ----------

  /** `get_split_dim`: the error is raised as soon as a second finer dimension is met. */
  method GetSplitDim(m: Mesh, merged: Mesh) returns (dim: Option<int>)
    ensures dim == SplitDim(m, merged)
  {
    hide Sorted;
    var todo := set d | d in m.states && d >= 0 && m.states[d] > 1;
    var split, found := NO_SPLIT_DIM, false;
    ghost var seen: set<int> := {};
    while todo != {}
      invariant forall d :: d in FinerDims(m, merged) ==> d in todo || d in seen
      invariant forall d :: d in todo ==> d in m.states && d >= 0 && m.states[d] > 1
      invariant todo !! seen && seen <= FinerDims(m, merged)
      invariant seen == if found then {split} else {}
      invariant !found ==> split == NO_SPLIT_DIM
      decreases todo
    {
      assert (forall j :: j !in todo) ==> todo == {};
      var d :| d in todo;
      if d !in merged.states || merged.states[d] < m.states[d] {
        if split != NO_SPLIT_DIM {
          TwoFiner(FinerDims(m, merged), split, d);
          return None;
        }
        split, found, seen := d, true, {d};
      }
      todo := todo - {d};
    }
    assert FinerDims(m, merged) == seen;
    if found { SortedSingle(split); } else { SortedNone(); }
    return Some(split);
  }

  lemma SortedNone()
    ensures Sorted({}) == []
  {
  }

  lemma TwoFiner(s: set<int>, a: int, b: int)
    requires a in s && b in s && a != b
    ensures |Sorted(s)| > 1
  {
    hide Sorted;
    var i, j := IndexOf(Sorted(s), a), IndexOf(Sorted(s), b);
  }

  // ---------- the local scatter plan ----------

  /**
   What the communication substitution computes for a local split: which dimensions to cut,
   into how many chunks, and which chunk the device keeps.
   */
  method ScatterPlan(src: DistributedStates, dst: DistributedStates, local: nat)
    returns (keys: seq<int>, splits: seq<int>, indices: seq<int>)
    requires src.Value().Valid() && dst.Value().Valid()
    requires forall o <- dst.order :: o >= 0 ==> src.Value().Dim(o) >= 1 && dst.Value().Dim(o) >= src.Value().Dim(o)
    ensures keys == SplitKeys(dst.Value(), src.Value(), dst.order)
    ensures |splits| == |keys| == |indices|
    ensures forall i | 0 <= i < |keys| ::
              && keys[i] in dst.order
              && splits[i] == dst.Value().Dim(keys[i]) / src.Value().Dim(keys[i]) && splits[i] >= 1
              && indices[i] == dst.Value().Coord(keys[i], local) % splits[i]
  {
    hide Mesh.Valid, Mesh.Coord;
    var s, d := src.Value(), dst.Value();
    var index := dst.MapDeviceToStateIndex(local);
    keys, splits, indices := [], [], [];
    for k := 0 to |dst.order|
      invariant keys == SplitKeys(d, s, dst.order[..k])
      invariant |splits| == |keys| == |indices|
      invariant forall i | 0 <= i < |keys| ::
        && keys[i] in dst.order
        && splits[i] == Ratio(d, s, keys[i]) && splits[i] >= 1
        && indices[i] == d.Coord(keys[i], local) % splits[i]
    {
      var o := dst.order[k];
      assert dst.order[..k + 1][..k] == dst.order[..k];
      if o >= 0 && d.Dim(o) != s.Dim(o) {
        RatioPositive(d, s, o);
        keys := keys + [o];
        splits := splits + [Ratio(d, s, o)];
        indices := indices + [index[o] % Ratio(d, s, o)];
      }
    }
    assert dst.order[..|dst.order|] == dst.order;
  }

  function Ratio(dst: Mesh, src: Mesh, o: int): int {
    if src.Dim(o) == 0 then 0 else dst.Dim(o) / src.Dim(o)
  }

  lemma RatioPositive(dst: Mesh, src: Mesh, o: int)
    requires src.Dim(o) >= 1 && dst.Dim(o) >= src.Dim(o)
    ensures Ratio(dst, src, o) >= 1
  {
  }
}
