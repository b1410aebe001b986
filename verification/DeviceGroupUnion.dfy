/**
 Unions of device groups: cutting one group into a union along a mesh dimension, the
 duplicate check of the union's constructor, and merging two unions.
 */
module DeviceGroupUnions {
  import opened Collections
  import opened DeviceMesh
  import opened SubMesh
  import opened DistributedStatesObjects

  // ---------- the constructor's check ----------

  predicate Inside<D>(groups: seq<seq<D>>, g: int, i: int) {
    0 <= g < |groups| && 0 <= i < |groups[g]|
  }

  /** No device occurs twice, neither inside one group nor in two of them. */
  ghost predicate Distinct<D>(groups: seq<seq<D>>) {
    forall g, i, g', i' | Inside(groups, g, i) && Inside(groups, g', i') && groups[g][i] == groups[g'][i'] ::
      g == g' && i == i'
  }

  predicate Before(g: int, i: int, g': int, i': int) {
    g < g' || (g == g' && i < i')
  }

  /** Every device before place (`g`, `i`) is recorded under its own place. */
  ghost predicate Recorded<D>(groups: seq<seq<D>>, at: map<D, (int, int)>, g: int, i: int) {
    && (forall d <- at ::
          Inside(groups, at[d].0, at[d].1) && Before(at[d].0, at[d].1, g, i) && groups[at[d].0][at[d].1] == d)
    && (forall a, b | Inside(groups, a, b) && Before(a, b, g, i) :: groups[a][b] in at && at[groups[a][b]] == (a, b))
  }

  lemma RecordOne<D>(groups: seq<seq<D>>, at: map<D, (int, int)>, g: int, i: int)
    requires Inside(groups, g, i) && Recorded(groups, at, g, i)
    ensures groups[g][i] in at ==> !Distinct(groups)
    ensures groups[g][i] !in at ==> Recorded(groups, at[groups[g][i] := (g, i)], g, i + 1)
  {
  }

  lemma RecordGroup<D>(groups: seq<seq<D>>, at: map<D, (int, int)>, g: int)
    requires 0 <= g < |groups| && Recorded(groups, at, g, |groups[g]|)
    ensures Recorded(groups, at, g + 1, 0)
  {
  }

  lemma RecordedAll<D>(groups: seq<seq<D>>, at: map<D, (int, int)>)
    requires Recorded(groups, at, |groups|, 0)
    ensures Distinct(groups)
  {
  }

  /** The list constructor: an error exactly when some device occurs twice. */
  method CheckUnion<D(==)>(groups: seq<seq<D>>) returns (ok: bool)
    ensures ok <==> Distinct(groups)
  {
    hide Distinct, Recorded;
    var seen: set<D> := {};
    ghost var at: map<D, (int, int)> := map[];
    assert Recorded(groups, at, 0, 0) by { NothingRecorded(groups); }
    for g := 0 to |groups|
      invariant seen == at.Keys && Recorded(groups, at, g, 0)
    {
      for i := 0 to |groups[g]|
        invariant seen == at.Keys && Recorded(groups, at, g, i)
      {
        var d := groups[g][i];
        RecordOne(groups, at, g, i);
        if d in seen {
          return false;
        }
        seen := seen + {d};
        at := at[d := (g, i)];
      }
      RecordGroup(groups, at, g);
    }
    RecordedAll(groups, at);
    return true;
  }

  lemma NothingRecorded<D>(groups: seq<seq<D>>)
    ensures Recorded(groups, map[], 0, 0)
  {
  }

  // ---------- device_group_to_union ----------

  /** The devices of `dg` at the places whose coordinate along `h` lies in span `g`, among the first `i`. */
  ghost function PartBelow<D>(dg: seq<D>, m: Mesh, h: int, span: nat, g: nat, i: nat): (part: seq<D>)
    requires m.Valid() && span >= 1 && i <= |dg|
    ensures |part| == |GroupBelow(m, h, span, g, i)|
    ensures forall j | 0 <= j < |part| ::
              GroupBelow(m, h, span, g, i)[j] < |dg| && part[j] == dg[GroupBelow(m, h, span, g, i)[j]]
  {
    hide Mesh.Valid, GroupBelow;
    GroupEntries(m, h, span, g, i);
    AtAll(dg, GroupBelow(m, h, span, g, i))
  }

  lemma PartNext<D>(dg: seq<D>, m: Mesh, h: int, span: nat, g: nat, i: nat)
    requires m.Valid() && span >= 1 && i < |dg|
    ensures PartBelow(dg, m, h, span, g, i + 1)
         == PartBelow(dg, m, h, span, g, i) + if PlaceAlong(m, h, i) / span == g then [dg[i]] else []
  {
    hide Mesh.Valid, PlaceAlong, PartBelow;
    var a, b := PartBelow(dg, m, h, span, g, i + 1), PartBelow(dg, m, h, span, g, i);
    assert GroupBelow(m, h, span, g, i + 1)
        == GroupBelow(m, h, span, g, i) + if PlaceAlong(m, h, i) / span == g then [i] else [];
    hide GroupBelow;
    assert a == b + if PlaceAlong(m, h, i) / span == g then [dg[i]] else [];
  }

  ghost predicate PartsUpTo<D>(lists: seq<seq<D>>, dg: seq<D>, m: Mesh, h: int, num: nat, span: nat, i: nat) {
    && m.Valid() && span >= 1 && i <= |dg| && |lists| == num
    && forall g | 0 <= g < num :: lists[g] == PartBelow(dg, m, h, span, g, i)
  }

  lemma NoParts<D>(lists: seq<seq<D>>, dg: seq<D>, m: Mesh, h: int, num: nat, span: nat)
    requires m.Valid() && span >= 1 && |lists| == num && forall g | 0 <= g < num :: lists[g] == []
    ensures PartsUpTo(lists, dg, m, h, num, span, 0)
  {
    hide Mesh.Valid;
  }

  lemma PartsNext<D>(lists: seq<seq<D>>, dg: seq<D>, m: Mesh, h: int, num: nat, span: nat, i: nat, k: nat)
    requires PartsUpTo(lists, dg, m, h, num, span, i) && i < |dg| && m.Valid() && span >= 1
    requires k == PlaceAlong(m, h, i) / span && k < num
    ensures PartsUpTo(lists[k := lists[k] + [dg[i]]], dg, m, h, num, span, i + 1)
  {
    hide Mesh.Valid, PlaceAlong, PartBelow;
    var next := lists[k := lists[k] + [dg[i]]];
    forall g: nat | g < num ensures next[g] == PartBelow(dg, m, h, span, g, i + 1) {
      PartNext(dg, m, h, span, g, i);
    }
  }

  lemma SpanOfPlace(m: Mesh, h: int, num: nat, x: nat)
    requires m.Valid() && num >= 1 && m.Dim(h) % num == 0
    ensures m.Dim(h) / num >= 1
    ensures PlaceAlong(m, h, x) / (m.Dim(h) / num) < num
  {
    var span := m.Dim(h) / num;
    assert m.Dim(h) >= 1;
    assert m.Dim(h) == num * span;
    assert h in m.order ==> h in m.states by {
      if h in m.order { var i := IndexOf(m.order, h); }
    }
    assert PlaceAlong(m, h, x) < num * span;
    hide Mesh.Valid, PlaceAlong;
    SpanInRange(PlaceAlong(m, h, x), num, span);
  }

  /** Cuts `dg` into `num` groups by the coordinate along `heteroDim`; `None` is an error. */
  method DeviceGroupToUnion<D(==)>(dg: seq<D>, ds: DistributedStates, heteroDim: int, num: nat)
    returns (union: Option<seq<seq<D>>>)
    requires ds.Value().Valid() && num >= 1
    ensures union.Some? <==> ds.Value().Dim(heteroDim) % num == 0 && NoDup(dg)
    ensures union.Some? ==>
              ds.Value().Dim(heteroDim) / num >= 1
              && PartsUpTo(union.value, dg, ds.Value(), heteroDim, num, ds.Value().Dim(heteroDim) / num, |dg|)
  {
    hide Mesh.Valid, Mesh.Coord, Mesh.Radices, PlaceAlong, PartsUpTo, PartBelow, Distinct, NoDup, IndexOf;
    var m := ds.Value();
    if m.Dim(heteroDim) % num != 0 {
      return None;
    }
    SpanOfPlace(m, heteroDim, num, 0);
    var span := m.Dim(heteroDim) / num;
    var lists: seq<seq<D>> := seq(num, i => []);
    NoParts(lists, dg, m, heteroDim, num, span);
    for i := 0 to |dg|
      invariant |lists| == num && PartsUpTo(lists, dg, m, heteroDim, num, span, i)
    {
      var index := ds.MapDeviceToStateIndex(i);
      var spanIndex := (if heteroDim in index then index[heteroDim] else 0) / span;
      assert spanIndex == PlaceAlong(m, heteroDim, i) / span by { PlaceIs(m, heteroDim, i, index); }
      SpanOfPlace(m, heteroDim, num, i);
      PartsNext(lists, dg, m, heteroDim, num, span, i, spanIndex);
      lists := lists[spanIndex := lists[spanIndex] + [dg[i]]];
    }
    PartsDistinct(lists, dg, m, heteroDim, num, span);
    var ok := CheckUnion(lists);
    return if ok then Some(lists) else None;
  }

  lemma PlaceIs(m: Mesh, h: int, x: nat, index: map<int, nat>)
    requires m.Valid() && forall d :: d in index <==> d in m.order
    requires forall d <- m.order :: index[d] == m.Coord(d, x)
    ensures PlaceAlong(m, h, x) == if h in index then index[h] else 0
  {
    hide Mesh.Valid, Mesh.Coord;
  }

  /** The constructor's check passes on the parts exactly when the given devices are distinct. */
  lemma PartsDistinct<D>(lists: seq<seq<D>>, dg: seq<D>, m: Mesh, h: int, num: nat, span: nat)
    requires m.Valid() && num >= 1 && span >= 1 && PartsUpTo(lists, dg, m, h, num, span, |dg|)
    requires m.Dim(h) % num == 0 && span == m.Dim(h) / num
    ensures Distinct(lists) <==> NoDup(dg)
  {
    hide Mesh.Valid, PlaceAlong, PartBelow, PartsUpTo, Distinct, NoDup;
    if NoDup(dg) {
      PartsOfDistinct(lists, dg, m, h, num, span);
    }
    if Distinct(lists) {
      DistinctFromParts(lists, dg, m, h, num, span);
    }
  }

  lemma PartPlace<D>(
    lists: seq<seq<D>>, dg: seq<D>, m: Mesh, h: int, num: nat, span: nat, g: int, i: int) returns (x: nat)
    requires m.Valid() && span >= 1 && PartsUpTo(lists, dg, m, h, num, span, |dg|) && Inside(lists, g, i)
    ensures x < |dg| && lists[g][i] == dg[x] && PlaceAlong(m, h, x) / span == g && i == |GroupBelow(m, h, span, g, x)|
  {
    hide Mesh.Valid, PlaceAlong, PartBelow;
    GroupEntries(m, h, span, g, |dg|);
    x := GroupBelow(m, h, span, g, |dg|)[i];
  }

  lemma PartsOfDistinct<D>(lists: seq<seq<D>>, dg: seq<D>, m: Mesh, h: int, num: nat, span: nat)
    requires m.Valid() && span >= 1 && PartsUpTo(lists, dg, m, h, num, span, |dg|) && NoDup(dg)
    ensures Distinct(lists)
  {
    hide Mesh.Valid, PlaceAlong, PartBelow, PartsUpTo, GroupBelow;
    forall g, i, g', i' | Inside(lists, g, i) && Inside(lists, g', i') && lists[g][i] == lists[g'][i']
      ensures g == g' && i == i'
    {
      var x := PartPlace(lists, dg, m, h, num, span, g, i);
      var y := PartPlace(lists, dg, m, h, num, span, g', i');
      assert x == y;
    }
  }

  lemma PlacePart<D>(
    lists: seq<seq<D>>, dg: seq<D>, m: Mesh, h: int, num: nat, span: nat, x: nat) returns (g: int, i: int)
    requires m.Valid() && num >= 1 && m.Dim(h) % num == 0 && span == m.Dim(h) / num && span >= 1
    requires PartsUpTo(lists, dg, m, h, num, span, |dg|) && x < |dg|
    ensures Inside(lists, g, i) && lists[g][i] == dg[x] && GroupBelow(m, h, span, g, |dg|)[i] == x
  {
    hide Mesh.Valid, PlaceAlong, PartBelow;
    SpanOfPlace(m, h, num, x);
    g := PlaceAlong(m, h, x) / span;
    GroupEntries(m, h, span, g, |dg|);
    i := |GroupBelow(m, h, span, g, x)|;
  }

  lemma DistinctFromParts<D>(lists: seq<seq<D>>, dg: seq<D>, m: Mesh, h: int, num: nat, span: nat)
    requires m.Valid() && num >= 1 && m.Dim(h) % num == 0 && span == m.Dim(h) / num && span >= 1
    requires PartsUpTo(lists, dg, m, h, num, span, |dg|) && Distinct(lists)
    ensures NoDup(dg)
  {
    hide Mesh.Valid, PlaceAlong, PartBelow, PartsUpTo, GroupBelow;
    forall x, y | 0 <= x < y < |dg| ensures dg[x] != dg[y] {
      var g, i := PlacePart(lists, dg, m, h, num, span, x);
      var g', i' := PlacePart(lists, dg, m, h, num, span, y);
    }
  }

  // ---------- merge ----------

  /** `a` followed by the members of `b` not met before. */
  function Joined<D(==)>(a: seq<D>, b: seq<D>): seq<D> {
    if b == [] then a else
      var d, most := b[|b| - 1], Joined(a, b[..|b| - 1]);
      if d in most then most else most + [d]
  }

  /** Merging keeps the order of the first group and adds exactly the missing devices of the second. */
  lemma {:induction false} JoinedExact<D>(a: seq<D>, b: seq<D>)
    ensures a <= Joined(a, b)
    ensures forall d :: d in Joined(a, b) <==> d in a || d in b
    ensures NoDup(a) ==> NoDup(Joined(a, b))
  {
    if b != [] {
      JoinedExact(a, b[..|b| - 1]);
      assert b == b[..|b| - 1] + [b[|b| - 1]];
    }
  }

  /** The devices added come in the order of the second group. */
  lemma {:induction false} JoinedInOrder<D>(a: seq<D>, b: seq<D>, i: nat, j: nat)
    requires |a| <= i < j < |Joined(a, b)|
    ensures Joined(a, b)[i] in b && Joined(a, b)[j] in b
    ensures IndexOf(b, Joined(a, b)[i]) < IndexOf(b, Joined(a, b)[j])
  {
    var n := |b| - 1;
    var most := Joined(a, b[..n]);
    JoinedExact(a, b[..n]);
    if j < |most| {
      JoinedInOrder(a, b[..n], i, j);
      IndexOfPrefix(b, n, most[i]);
      IndexOfPrefix(b, n, most[j]);
    } else {
      assert b[n] !in b[..n] && most[i] in most;
      AddedBefore(a, b[..n], i);
      IndexOfPrefix(b, n, most[i]);
      forall k | 0 <= k < n ensures b[k] in b[..n] {
        assert b[..n][k] == b[k];
      }
    }
  }

  lemma {:induction false} AddedBefore<D>(a: seq<D>, b: seq<D>, i: nat)
    requires |a| <= i < |Joined(a, b)|
    ensures Joined(a, b)[i] in b
  {
    var n := |b| - 1;
    var most := Joined(a, b[..n]);
    if i < |most| {
      AddedBefore(a, b[..n], i);
    } else {
      assert Joined(a, b)[i] == b[n];
    }
  }

  /** Merges two unions group by group; `None` is an error. */
  method Merge<D(==)>(x: seq<seq<D>>, y: seq<seq<D>>) returns (union: Option<seq<seq<D>>>)
    ensures union.Some? ==> |x| == |y| == |union.value| && Distinct(union.value)
    ensures union.Some? ==> forall i | 0 <= i < |x| :: union.value[i] == Joined(x[i], y[i])
    ensures union.None? <==>
            |x| != |y| || !Distinct(seq(|x|, i requires 0 <= i < |x| && |x| == |y| => Joined(x[i], y[i])))
  {
    hide Distinct;
    if |x| != |y| {
      return None;
    }
    var ret: seq<seq<D>> := [];
    for i := 0 to |x|
      invariant |ret| == i
      invariant forall j | 0 <= j < i :: ret[j] == Joined(x[j], y[j])
    {
      var merged := x[i];
      for j := 0 to |y[i]|
        invariant merged == Joined(x[i], y[i][..j])
      {
        assert y[i][..j + 1][..j] == y[i][..j];
        if y[i][j] !in merged {
          merged := merged + [y[i][j]];
        }
      }
      assert y[i][..|y[i]|] == y[i];
      ret := ret + [merged];
    }
    assert ret == seq(|x|, i requires 0 <= i < |x| && |x| == |y| => Joined(x[i], y[i]));
    var ok := CheckUnion(ret);
    return if ok then Some(ret) else None;
  }
}
