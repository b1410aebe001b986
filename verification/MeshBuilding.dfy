/**
 What constructing a `DistributedStates` from a state map and an order produces, and
 exactly when the result numbers its devices properly.

 Sizes of one are dropped from the map and the partial and duplicate dimensions are always put
 back; the order keeps the dimensions that split something, or lists them in ascending order.
 */
module MeshBuilding {
  import opened Collections
  import opened MixedRadix
  import opened DeviceMesh

  /** The entries that really split something. */
  function Kept(states: map<int, int>): map<int, int> {
    map k | k in states && states[k] > 1 :: states[k]
  }

  function Normalize(states: map<int, int>): map<int, int> {
    map[PARTIAL := 1, DUPLICATE := 1] + Kept(states)
  }

  /** The product of all the values of a map, in any order. */
  ghost function SizeProduct(m: map<int, int>): int {
    if m == map[] then 1 else
      assert (forall k :: k !in m.Keys) ==> m == map[];
      var k :| k in m.Keys;
      m[k] * SizeProduct(m - {k})
  }

  /** The dimensions of `order` that split something, in the same relative order. */
  function FilterOrder(order: seq<int>, states: map<int, int>): seq<int> {
    if order == [] then [] else
      var d := order[|order| - 1];
      FilterOrder(order[..|order| - 1], states) + (if d in states && states[d] > 1 then [d] else [])
  }

  /** `stored` is what `given` has at the ascending places `ps`, which are those of dimensions that split something. */
  ghost predicate PickedAt(given: seq<int>, stored: seq<int>, states: map<int, int>, ps: seq<nat>) {
    && |ps| == |stored| && (forall i | 0 <= i < |ps| :: ps[i] < |given| && stored[i] == given[ps[i]])
    && (forall i, j | 0 <= i < j < |ps| :: ps[i] < ps[j])
    && (forall p: nat | p < |given| :: p in ps <==> given[p] in states && states[given[p]] > 1)
  }

  ghost predicate PickedFrom(given: seq<int>, stored: seq<int>, states: map<int, int>) {
    exists ps: seq<nat> :: PickedAt(given, stored, states, ps)
  }

  lemma {:induction false} FilterPicks(order: seq<int>, states: map<int, int>) returns (ps: seq<nat>)
    ensures PickedAt(order, FilterOrder(order, Kept(states)), states, ps)
  {
    if order == [] {
      ps := [];
    } else {
      var n := |order| - 1;
      var most := FilterPicks(order[..n], states);
      ps := if order[n] in states && states[order[n]] > 1 then most + [n] else most;
      PickNext(order, n, states, most, ps);
    }
  }

  lemma PickNext(order: seq<int>, n: nat, states: map<int, int>, most: seq<nat>, ps: seq<nat>)
    requires n == |order| - 1 && PickedAt(order[..n], FilterOrder(order[..n], Kept(states)), states, most)
    requires ps == if order[n] in states && states[order[n]] > 1 then most + [n] else most
    ensures PickedAt(order, FilterOrder(order, Kept(states)), states, ps)
  {
    FilterLast(order, states);
    var got := FilterOrder(order[..n], Kept(states));
    hide FilterOrder, Kept;
    forall p: nat | p < n ensures order[..n][p] == order[p] { }
    if order[n] in states && states[order[n]] > 1 {
      PickOne(order, n, states, got, most);
    } else {
      PickNone(order, n, states, got, most);
    }
  }

  lemma FilterLast(order: seq<int>, states: map<int, int>)
    requires order != []
    ensures var n := |order| - 1;
            FilterOrder(order, Kept(states)) == FilterOrder(order[..n], Kept(states))
              + if order[n] in states && states[order[n]] > 1 then [order[n]] else []
  {
  }

  lemma PickOne(order: seq<int>, n: nat, states: map<int, int>, got: seq<int>, most: seq<nat>)
    requires n == |order| - 1 && PickedAt(order[..n], got, states, most)
    requires order[n] in states && states[order[n]] > 1
    ensures PickedAt(order, got + [order[n]], states, most + [n])
  {
    forall i | 0 <= i < |most| ensures most[i] < n { }
    forall p: nat | p < |order| ensures p in most + [n] <==> order[p] in states && states[order[p]] > 1 {
      if p < n { assert order[..n][p] == order[p]; }
    }
  }

  lemma PickNone(order: seq<int>, n: nat, states: map<int, int>, got: seq<int>, most: seq<nat>)
    requires n == |order| - 1 && PickedAt(order[..n], got, states, most)
    requires !(order[n] in states && states[order[n]] > 1)
    ensures PickedAt(order, got, states, most)
  {
    assert n !in most;
    forall p: nat | p < |order| ensures p in most <==> order[p] in states && states[order[p]] > 1 {
      if p < n { assert order[..n][p] == order[p]; }
    }
  }

  function BuiltOrder(states: map<int, int>, order: seq<int>): seq<int> {
    if order == [] then Sorted(Kept(states).Keys) else FilterOrder(order, Kept(states))
  }

  ghost predicate Buildable(n: int, states: map<int, int>, order: seq<int>) {
    SizeProduct(Kept(states)) == n && (order == [] || forall k <- Kept(states) :: k in order)
  }

  function Build(n: int, states: map<int, int>, order: seq<int>, zero: bool): Mesh {
    Mesh(n, Normalize(states), BuiltOrder(states, order), zero)
  }

  lemma NormalizeAt(st: map<int, int>, k: int)
    ensures k in Normalize(st) <==> k == PARTIAL || k == DUPLICATE || (k in st && st[k] > 1)
    ensures k in Normalize(st) ==> Normalize(st)[k] == if k in st && st[k] > 1 then st[k] else 1
  {
  }

  /** States are left alone when every entry but the two special ones splits something. */
  lemma NormalizeFixed(st: map<int, int>)
    requires PARTIAL in st && DUPLICATE in st
    requires forall k <- st :: st[k] >= 1 && (k != PARTIAL && k != DUPLICATE ==> st[k] > 1)
    ensures Normalize(st) == st
  {
    forall k ensures k in Normalize(st) <==> k in st
             ensures k in st ==> Normalize(st)[k] == st[k]
    {
      NormalizeAt(st, k);
    }
    hide Normalize;
    assert Normalize(st).Keys == st.Keys;
  }

  lemma BuildFields(n: int, states: map<int, int>, order: seq<int>, zero: bool)
    ensures Build(n, states, order, zero).deviceNum == n
    ensures Build(n, states, order, zero).states == Normalize(states)
    ensures Build(n, states, order, zero).order == BuiltOrder(states, order)
  {
  }

  // ---------- products over maps and over orders agree ----------

  lemma {:induction false} SizeProductRemove(m: map<int, int>, k: int)
    requires k in m
    ensures SizeProduct(m) == m[k] * SizeProduct(m - {k})
    decreases |m|
  {
    assert (forall j :: j !in m.Keys) ==> m == map[];
    var j :| j in m.Keys && SizeProduct(m) == m[j] * SizeProduct(m - {j});
    if j != k {
      var r := m - {j};
      SizeDown(m, j);
      SizeDown(m, k);
      SizeProductRemove(r, k);
      SizeProductRemove(m - {k}, j);
      assert r - {k} == (m - {k}) - {j};
      var p := SizeProduct(r - {k});
      hide SizeProduct;
      MulAssoc(m[j], m[k], p);
      MulAssoc(m[k], m[j], p);
      MulComm(m[j], m[k]);
    }
  }

  lemma SizeDown(m: map<int, int>, k: int)
    requires k in m
    ensures |m - {k}| == |m| - 1
  {
    assert (m - {k}).Keys == m.Keys - {k};
    assert |(m - {k}).Keys| == |m.Keys| - 1;
  }

  lemma {:induction false} OrderProduct(m: map<int, int>, order: seq<int>)
    requires NoDup(order) && forall k :: k in m <==> k in order
    requires forall i | 0 <= i < |order| :: order[i] in m && m[order[i]] >= 0
    ensures Prod(Pick(m, order)) == SizeProduct(m)
  {
    if order == [] {
      forall k ensures k !in m.Keys {
        assert k in m ==> k in order;
      }
      assert m == map[];
    } else {
      var d, rest := order[|order| - 1], order[..|order| - 1];
      assert order == rest + [d];
      WithoutLast(m, rest, d);
      OrderProduct(m - {d}, rest);
      SizeProductRemove(m, d);
      MulComm(SizeProduct(m - {d}), m[d]);
    }
  }

  lemma WithoutLast(m: map<int, int>, rest: seq<int>, d: int)
    requires NoDup(rest + [d]) && forall k :: k in m <==> k in rest + [d]
    requires forall i | 0 <= i < |rest + [d]| :: (rest + [d])[i] in m && m[(rest + [d])[i]] >= 0
    ensures NoDup(rest) && d !in rest && d in m && forall k :: k in m - {d} <==> k in rest
    ensures forall i | 0 <= i < |rest| :: rest[i] in m - {d} && m[rest[i]] >= 0
    ensures Pick(m, rest + [d]) == Pick(m - {d}, rest) + [m[d]]
  {
    hide Pick;
    var order := rest + [d];
    assert order[|rest|] == d;
    forall i | 0 <= i < |rest| ensures rest[i] != d && rest[i] in m && m[rest[i]] >= 0 {
      assert order[i] == rest[i] && order[i] != order[|rest|];
    }
    NoDupPrefix(rest, d);
    assert Pick(m, order) == Pick(m - {d}, rest) + [m[d]];
  }

  lemma NoDupPrefix(rest: seq<int>, d: int)
    requires NoDup(rest + [d])
    ensures NoDup(rest) && d !in rest
  {
    var order := rest + [d];
    forall i, j | 0 <= i < j < |rest| ensures rest[i] != rest[j] {
      assert order[i] != order[j];
    }
    forall i | 0 <= i < |rest| ensures rest[i] != d {
      assert order[i] != order[|rest|];
    }
  }

  lemma {:induction false} FilterOrderMembers(order: seq<int>, states: map<int, int>)
    ensures forall d :: d in FilterOrder(order, states) <==> d in order && d in states && states[d] > 1
    ensures forall i | 0 <= i < |FilterOrder(order, states)| :: FilterOrder(order, states)[i] in states
  {
    if order != [] {
      var n := |order| - 1;
      FilterOrderMembers(order[..n], states);
      assert order == order[..n] + [order[n]];
    }
  }

  /**
   A successful construction is a proper numbering exactly when the kept dimensions do
   not repeat: neither setter rejects an order that names a split dimension twice.
   */
  lemma BuildValid(n: int, states: map<int, int>, order: seq<int>, zero: bool)
    requires Buildable(n, states, order)
    ensures Build(n, states, order, zero).Valid() <==> NoDup(BuiltOrder(states, order))
    ensures order == [] ==> NoDup(BuiltOrder(states, order))
  {
    var m, o := Build(n, states, order, zero), BuiltOrder(states, order);
    BuiltOrderMembers(states, order);
    if NoDup(o) {
      OrderProduct(Kept(states), o);
      BuiltRadices(n, states, order, zero);
      BuiltIsValid(m, states);
    }
  }

  lemma BuiltIsValid(m: Mesh, states: map<int, int>)
    requires m.states == Normalize(states) && NoDup(m.order) && forall d :: d in m.order <==> d in Kept(states)
    requires forall i | 0 <= i < |m.order| :: m.order[i] in m.states && m.states[m.order[i]] > 1
    requires Prod(m.Radices()) == m.deviceNum
    ensures m.Valid()
  {
    hide Prod, Pick;
  }

  lemma BuiltOrderMembers(states: map<int, int>, order: seq<int>)
    requires order == [] || forall k <- Kept(states) :: k in order
    ensures forall d :: d in BuiltOrder(states, order) <==> d in Kept(states)
    ensures forall i | 0 <= i < |BuiltOrder(states, order)| :: BuiltOrder(states, order)[i] in Kept(states)
    ensures order == [] ==> NoDup(BuiltOrder(states, order))
  {
    if order != [] {
      FilterOrderMembers(order, Kept(states));
    } else {
      var o := Sorted(Kept(states).Keys);
      assert forall i | 0 <= i < |o| :: o[i] in o;
    }
  }

  lemma BuiltRadices(n: int, states: map<int, int>, order: seq<int>, zero: bool)
    requires forall i | 0 <= i < |BuiltOrder(states, order)| :: BuiltOrder(states, order)[i] in Kept(states)
    ensures var m := Build(n, states, order, zero);
            (forall i | 0 <= i < |m.order| :: m.order[i] in m.states && m.states[m.order[i]] > 1)
            && m.Radices() == Pick(Kept(states), m.order)
  {
    hide Pick, BuiltOrder, Sorted;
    var m := Build(n, states, order, zero);
    forall i | 0 <= i < |m.order| ensures m.order[i] in m.states && m.states[m.order[i]] == Kept(states)[m.order[i]] {
      assert m.order[i] in Kept(states);
    }
  }

  /** An accepted order that repeats a dimension: two devices, counted as if they were four. */
  lemma RepeatsAccepted()
    ensures Buildable(2, map[0 := 2], [0, 0]) && !Build(2, map[0 := 2], [0, 0], false).Valid()
  {
    var states: map<int, int>, order: seq<int> := map[0 := 2], [0, 0];
    TwoOnZero(states, order);
    hide SizeProduct, FilterOrder;
    BuildValid(2, states, order, false);
  }

  lemma TwoOnZero(states: map<int, int>, order: seq<int>)
    requires states == map[0 := 2] && order == [0, 0]
    ensures Kept(states) == states && SizeProduct(states) == 2 && BuiltOrder(states, order) == order
  {
    assert Kept(states) == states;
    assert states - {0} == map[];
    SizeProductRemove(states, 0);
    assert order[..1][..0] == [] && order[..1][0] == 0;
    assert FilterOrder(order[..1], states) == [0];
  }

  /** Building a valid mesh again changes nothing. */
  lemma RebuildIsIdentity(m: Mesh)
    requires m.Valid()
    ensures Buildable(m.deviceNum, m.states, m.order)
    ensures Build(m.deviceNum, m.states, m.order, m.zero) == m
  {
    hide Prod, SizeProduct, Pick, FilterOrder;
    ValidKept(m);
    OrderProduct(Kept(m.states), m.order);
    assert Pick(Kept(m.states), m.order) == m.Radices();
    FilterAll(m.order, Kept(m.states));
    RebuiltOrder(m);
  }

  lemma RebuiltOrder(m: Mesh)
    requires forall k :: k in Kept(m.states) <==> k in m.order
    requires FilterOrder(m.order, Kept(m.states)) == m.order
    ensures BuiltOrder(m.states, m.order) == m.order
  {
    if m.order == [] {
      forall k ensures k !in Kept(m.states).Keys {
        assert k in Kept(m.states) ==> k in m.order;
      }
      assert Kept(m.states).Keys == {};
    }
  }

  lemma ValidKept(m: Mesh)
    requires m.Valid()
    ensures forall k :: k in Kept(m.states) <==> k in m.order
    ensures forall i | 0 <= i < |m.order| :: m.order[i] in Kept(m.states)
    ensures Normalize(m.states) == m.states
  {
    hide Prod, Pick;
    NormalizeFixed(m.states);
    hide Normalize;
    forall k | k in m.order ensures k in Kept(m.states) {
      var i := IndexOf(m.order, k);
      assert m.order[i] in m.states;
    }
    forall i | 0 <= i < |m.order| ensures m.order[i] in Kept(m.states) {
      assert m.order[i] in m.order;
    }
  }

  /** The order names dimensions that split something, and these are their sizes. */
  ghost predicate HasRadices(st: map<int, int>, o: seq<int>, rs: seq<nat>) {
    |o| == |rs| && forall i | 0 <= i < |o| :: o[i] in st && st[o[i]] > 1 && st[o[i]] == rs[i]
  }

  /** States and an order that already agree are kept as they are. */
  lemma AgreeingBuild(n: int, states: map<int, int>, order: seq<int>, zero: bool)
    requires NoDup(order)
    requires forall i | 0 <= i < |order| :: order[i] in states && states[order[i]] > 1
    requires forall k <- states :: states[k] > 1 ==> k in order
    requires Prod(Pick(states, order)) == n
    ensures Buildable(n, states, order)
    ensures Build(n, states, order, zero) == Mesh(n, Normalize(states), order, zero)
    ensures Build(n, states, order, zero).Valid()
    ensures Build(n, states, order, zero).Radices() == Pick(states, order)
  {
    hide *;
    KeptIsOrder(states, order);
    OrderKept(states, order);
    OrderProduct(Kept(states), order);
    BuildableIs(n, states, order);
    BuildValid(n, states, order, zero);
    BuiltRadices(n, states, order, zero);
    BuildFields(n, states, order, zero);
    BuildZero(n, states, order, zero);
  }

  lemma KeptIsOrder(states: map<int, int>, order: seq<int>)
    requires forall i | 0 <= i < |order| :: order[i] in states && states[order[i]] > 1
    requires forall k <- states :: states[k] > 1 ==> k in order
    ensures forall d :: d in Kept(states) <==> d in order
    ensures forall i | 0 <= i < |order| :: order[i] in Kept(states) && Kept(states)[order[i]] == states[order[i]] > 1
    ensures Pick(Kept(states), order) == Pick(states, order)
  {
    hide Pick;
    forall d ensures d in order <==> d in Kept(states) {
      if d in order {
        var i := IndexOf(order, d);
        assert order[i] in states;
      }
    }
    assert Pick(Kept(states), order) == Pick(states, order);
  }

  lemma OrderKept(states: map<int, int>, order: seq<int>)
    requires forall d :: d in Kept(states) <==> d in order
    requires forall i | 0 <= i < |order| :: order[i] in Kept(states) && Kept(states)[order[i]] > 1
    ensures BuiltOrder(states, order) == order
  {
    hide Kept, FilterOrder;
    FilterAll(order, Kept(states));
    if order == [] {
      forall k ensures k !in Kept(states).Keys {
        assert k in Kept(states) ==> k in order;
      }
      assert Kept(states).Keys == {};
    }
  }

  lemma BuildableIs(n: int, states: map<int, int>, order: seq<int>)
    ensures Buildable(n, states, order) <==>
            SizeProduct(Kept(states)) == n && (order == [] || forall k <- Kept(states) :: k in order)
  {
    hide SizeProduct, Kept;
  }

  lemma BuildZero(n: int, states: map<int, int>, order: seq<int>, zero: bool)
    ensures Build(n, states, order, zero).zero == zero
  {
  }

  lemma {:induction false} FilterAll(order: seq<int>, states: map<int, int>)
    requires forall i | 0 <= i < |order| :: order[i] in states && states[order[i]] > 1
    ensures FilterOrder(order, states) == order
  {
    if order != [] {
      var n := |order| - 1;
      FilterAll(order[..n], states);
      assert order == order[..n] + [order[n]];
    }
  }

  // ---------- what the default order means ----------

  /**
   Without an order the devices are counted with the highest dimension fastest and the lowest, which is
   the partial one where there is one, slowest.
   */
  lemma DefaultNumbering(n: int, states: map<int, int>, zero: bool, d: int, x: nat)
    requires Buildable(n, states, []) && d in states && states[d] > 1
    ensures Build(n, states, [], zero).Valid() && d in Build(n, states, [], zero).order
    ensures Build(n, states, [], zero).states[d] == states[d]
    ensures (forall e <- states :: states[e] > 1 ==> e <= d) ==> Build(n, states, [], zero).Coord(d, x) == x % states[d]
    ensures (forall e <- states :: states[e] > 1 ==> d <= e) && x < n ==>
              n / states[d] >= 1 && Build(n, states, [], zero).Coord(d, x) == x / (n / states[d])
  {
    var m := Build(n, states, [], zero);
    BuildValid(n, states, [], zero);
    DefaultOrder(n, states, zero);
    NormalizeAt(states, d);
    hide Build, Sorted, Normalize, Buildable;
    EndDigits(m, d, x);
  }

  lemma DefaultOrder(n: int, states: map<int, int>, zero: bool)
    ensures var m := Build(n, states, [], zero);
            && m.deviceNum == n && m.states == Normalize(states) && Increasing(m.order)
            && forall d :: d in m.order <==> d in states && states[d] > 1
  {
  }

  /** The last digit of an ascending order is the remainder, the first the quotient. */
  lemma EndDigits(m: Mesh, d: int, x: nat)
    requires m.Valid() && Increasing(m.order) && d in m.order
    ensures (forall e <- m.order :: e <= d) ==> m.Coord(d, x) == x % m.states[d]
    ensures (forall e <- m.order :: d <= e) && x < m.deviceNum ==>
              m.deviceNum / m.states[d] >= 1 && m.Coord(d, x) == x / (m.deviceNum / m.states[d])
  {
    hide *;
    var p := IndexOf(m.order, d);
    var rs := DigitOf(m, p, x);
    EndPlaces(m.order, p);
    if forall e <- m.order :: e <= d {
      LastDigit(rs, x);
    }
    if (forall e <- m.order :: d <= e) && x < m.deviceNum {
      FirstDigit(rs, x);
    }
  }

  lemma EndPlaces(o: seq<int>, p: nat)
    requires Increasing(o) && p < |o|
    ensures (forall e <- o :: e <= o[p]) ==> p == |o| - 1
    ensures (forall e <- o :: o[p] <= e) ==> p == 0
  {
    assert o[0] in o && o[|o| - 1] in o;
  }

  lemma DigitOf(m: Mesh, p: nat, x: nat) returns (rs: seq<nat>)
    requires m.Valid() && p < |m.order|
    ensures |rs| == |m.order| && AllPos(rs) && Prod(rs) == m.deviceNum
    ensures m.order[p] in m.order && m.order[p] in m.states && rs[p] == m.states[m.order[p]]
    ensures rs[p] >= 1 && Prod(rs[p + 1..]) >= 1 && m.Coord(m.order[p], x) == (x / Prod(rs[p + 1..])) % rs[p]
  {
    hide Prod, Pick, Digits;
    rs := m.Radices();
    CoordAt(m, p, x);
    DigitAt(rs, x, p);
  }

  lemma LastDigit(rs: seq<nat>, x: nat)
    requires AllPos(rs) && |rs| > 0
    ensures Prod(rs[|rs|..]) == 1 && x / Prod(rs[|rs|..]) == x
  {
    assert rs[|rs|..] == [];
    EmptyProd();
    hide *;
  }

  lemma EmptyProd()
    ensures Prod([]) == 1
  {
  }

  lemma FirstDigit(rs: seq<nat>, x: nat)
    requires AllPos(rs) && |rs| > 0 && x < Prod(rs)
    ensures Prod(rs[1..]) >= 1 && Prod(rs) / rs[0] == Prod(rs[1..]) && (x / Prod(rs[1..])) % rs[0] == x / Prod(rs[1..])
  {
    hide Prod;
    var w := Prod(rs[1..]);
    ProdPos(rs[1..]);
    assert rs == [rs[0]] + rs[1..];
    RankCons(rs[0], rs[1..], 0, seq(|rs| - 1, i => 0));
    WholeQuotient(rs[0], w, x);
  }

  lemma WholeQuotient(r: nat, w: nat, x: nat)
    requires r >= 1 && w >= 1 && x < r * w
    ensures (r * w) / r == w && (x / w) % r == x / w
  {
    hide *;
    ProductQuotient(r, w);
    MulComm(r, w);
    DivModSmall(x, w, r);
    SmallMod(x / w, r);
  }

  lemma ProductQuotient(r: nat, w: nat)
    requires r >= 1
    ensures (r * w) / r == w
  {
    MulComm(r, w);
    DivModOf(w, r, 0);
  }

  lemma SmallMod(x: nat, r: nat)
    requires x < r
    ensures x % r == x
  {
  }
}
