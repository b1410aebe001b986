/** Cutting a mesh into sub-meshes, and what a rank inside a group means. */
module SubMesh {
  import opened Collections
  import opened MixedRadix
  import opened DeviceMesh
  import opened MeshBuilding

  // ---------- the positions a cut selects ----------

  /** The part of index `x` when every stretch of `num * b` indices is cut in pieces of `b`. */
  function PartOf(x: nat, num: nat, b: nat): nat
    requires num * b >= 1 && b >= 1
  {
    (x % (num * b)) / b
  }

  /** The rank of index `x` among the indices of its part. */
  function RankInPart(x: nat, num: nat, b: nat): nat
    requires num * b >= 1 && b >= 1
  {
    var q := x / (num * b);
    MulMono(0, q, b);
    q * b + x % b
  }

  function Clamp(v: int, hi: nat): nat {
    if v < 0 then 0 else if v > hi then hi else v
  }

  /** How many of the indices below `i` fall in part `g`. */
  function CountBelow(i: nat, num: nat, b: nat, g: nat): nat
    requires num * b >= 1
  {
    var q := i / (num * b);
    MulMono(0, q, b);
    q * b + Clamp(i % (num * b) - g * b, b)
  }

  lemma InPartBounds(r: nat, b: nat, g: nat)
    requires b >= 1
    ensures r / b == g <==> g * b <= r < g * b + b
  {
    var q := r / b;
    assert r == b * q + r % b;
    MulComm(b, q);
    if g * b <= r < g * b + b {
      DivModOf(g, b, r - g * b);
    }
  }

  lemma NextQuotient(i: nat, m: nat)
    requires m >= 1
    ensures i % m + 1 < m ==> (i + 1) / m == i / m && (i + 1) % m == i % m + 1
    ensures i % m + 1 == m ==> (i + 1) / m == i / m + 1 && (i + 1) % m == 0
  {
    var q, r := i / m, i % m;
    assert i == m * q + r;
    MulComm(m, q);
    if r + 1 < m {
      DivModOf(q, m, r + 1);
    } else {
      MulDist(q, 1, m);
      DivModOf(q + 1, m, 0);
    }
  }

  lemma CountNext(i: nat, num: nat, b: nat, g: nat)
    requires b >= 1 && g < num && num * b >= 1
    ensures CountBelow(i + 1, num, b, g) == CountBelow(i, num, b, g) + if PartOf(i, num, b) == g then 1 else 0
  {
    var m := num * b;
    var r := i % m;
    NextQuotient(i, m);
    InPartBounds(r, b, g);
    assert g * b + b <= m by {
      MulDist(g, 1, b);
      MulMono(g + 1, num, b);
    }
    if r + 1 == m {
      MulDist(i / m, 1, b);
      assert g + 1 < num ==> g * b + b < m by {
        if g + 1 < num {
          MulDist(g + 1, 1, b);
          MulDist(g, 1, b);
          MulMono(g + 2, num, b);
        }
      }
      if g + 1 == num {
        MulDist(g, 1, b);
      }
    }
  }

  lemma CountInPart(x: nat, num: nat, b: nat)
    requires b >= 1 && num * b >= 1
    ensures PartOf(x, num, b) < num
    ensures CountBelow(x, num, b, PartOf(x, num, b)) == RankInPart(x, num, b)
  {
    var r := x % (num * b);
    MulComm(num, b);
    DivModSmall(r, b, num);
    var g := r / b;
    assert r == b * g + r % b;
    MulComm(b, g);
    SplitTwice(x, num, b);
  }

  // ---------- digits inside a part ----------

  /** With radix `num * span` at `p`, the leading part of that digit is the part of the index. */
  lemma LeadingDigit(x: nat, num: nat, span: nat, w: nat)
    requires num >= 1 && span >= 1 && w >= 1
    ensures num * span >= 1 && span * w >= 1 && num * (span * w) >= 1
    ensures (((x / w) % (num * span)) / span) == (x % (num * (span * w))) / (span * w)
    ensures (((x / w) % (num * span)) % span) == (x / w) % span
  {
    MulMono(1, num, span);
    MulMono(1, span, w);
    MulMono(1, num, span * w);
    SplitTwice(x / w, num, span);
    SplitTwice(x, num, span * w);
    SplitTwice(x, span, w);
  }

  lemma LocalRank(x: nat, num: nat, span: nat, w: nat)
    requires num >= 1 && span >= 1 && w >= 1 && num * span >= 1 && (num * span) * w >= 1
    requires span * w >= 1 && num * (span * w) >= 1
    ensures ((x / ((num * span) * w)) * span + (x / w) % span) * w + x % w
         == (x / (num * (span * w))) * (span * w) + x % (span * w)
  {
    MulAssoc(num, span, w);
    var q := x / (num * (span * w));
    SplitTwice(x, span, w);
    var b := x % (span * w);
    assert b == w * (b / w) + b % w;
    MulComm(w, b / w);
    MulDist(q * span, (x / w) % span, w);
    MulAssoc(q, span, w);
  }

  lemma LocalDigits(rs: seq<nat>, p: nat, num: nat, span: nat, b: nat, x: nat)
    requires AllPos(rs) && p < |rs| && x < Prod(rs) && num >= 1 && span >= 1 && rs[p] == num * span
    requires b == span * Prod(rs[p + 1..]) && b >= 1 && num * b >= 1
    ensures Digits(rs, x)[p] / span == PartOf(x, num, b)
    ensures AllPos(rs[p := span]) && RankInPart(x, num, b) < Prod(rs[p := span])
    ensures Digits(rs[p := span], RankInPart(x, num, b)) == Digits(rs, x)[p := Digits(rs, x)[p] % span]
  {
    hide Prod, Digits, Rank;
    var w, d := Prod(rs[p + 1..]), Digits(rs, x)[p];
    DigitAt(rs, x, p);
    LeadingDigit(x, num, span, w);
    RankReplace(rs, x, p, span, d % span);
    LocalRank(x, num, span, w);
    DigitsOfRank(rs[p := span], Digits(rs, x)[p := d % span]);
  }

  /** A radix of 1 carries no information: it can be dropped. */
  lemma DropOne(rs: seq<nat>, p: nat, x: nat)
    requires AllPos(rs) && p < |rs| && rs[p] == 1
    ensures AllPos(rs[..p] + rs[p + 1..])
    ensures Prod(rs[..p] + rs[p + 1..]) == Prod(rs)
    ensures Digits(rs[..p] + rs[p + 1..], x) == Digits(rs, x)[..p] + Digits(rs, x)[p + 1..]
  {
    ProdAppend(rs[..p], rs[p + 1..]);
    ProdSplit(rs, p);
    DigitsAppend(rs[..p], rs[p + 1..], x);
    DigitAt(rs, x, p);
    hide Prod, Digits;
  }

  // ---------- the groups of a cut ----------

  /** The devices below `i` whose coordinate along `h` lies in span number `g`, in order. */
  ghost function GroupBelow(m: Mesh, h: int, span: nat, g: nat, i: nat): seq<nat>
    requires m.Valid() && span >= 1
  {
    if i == 0 then [] else
      GroupBelow(m, h, span, g, i - 1) + (if PlaceAlong(m, h, i - 1) / span == g then [i - 1] else [])
  }

  ghost function Group(m: Mesh, h: int, span: nat, g: nat): seq<nat>
    requires m.Valid() && span >= 1
  {
    hide Prod, Pick;
    SizePositive(m);
    GroupBelow(m, h, span, g, m.deviceNum)
  }

  lemma SizePositive(m: Mesh)
    requires m.Valid()
    ensures m.deviceNum >= 1
  {
    ProdPos(m.Radices());
  }

  /** The devices of a group are listed in increasing order, each after exactly the smaller ones. */
  lemma {:induction false} GroupEntries(m: Mesh, h: int, span: nat, g: nat, i: nat)
    requires m.Valid() && span >= 1
    ensures forall j | 0 <= j < |GroupBelow(m, h, span, g, i)| ::
              var x := GroupBelow(m, h, span, g, i)[j];
              x < i && PlaceAlong(m, h, x) / span == g && |GroupBelow(m, h, span, g, x)| == j
    ensures forall x: nat | x < i && PlaceAlong(m, h, x) / span == g ::
              |GroupBelow(m, h, span, g, x)| < |GroupBelow(m, h, span, g, i)|
              && GroupBelow(m, h, span, g, i)[|GroupBelow(m, h, span, g, x)|] == x
  {
    hide Prod, Pick, Mesh.Valid, PlaceAlong;
    if i > 0 {
      GroupEntries(m, h, span, g, i - 1);
    }
  }

  /** How a cut of dimension `h` into `num` spans sits in the mesh. */
  ghost predicate Cut(m: Mesh, h: int, num: nat, span: nat) {
    m.Valid() && h in m.order && num >= 1 && span >= 1 && m.states[h] == num * span
  }

  /** The number of consecutive devices that share all coordinates above `h` and the span of `h`. */
  ghost function Stretch(m: Mesh, h: int, num: nat, span: nat): (b: nat)
    requires Cut(m, h, num, span)
    ensures b >= 1 && num * b >= 1
  {
    hide Pick;
    var rest := m.Radices()[IndexOf(m.order, h) + 1..];
    ProdPos(rest);
    MulMono(1, span, Prod(rest));
    MulMono(1, num, span * Prod(rest));
    span * Prod(rest)
  }

  /** The local radices of a part: the cut radix shrinks to its span. */
  ghost function SpanRadices(m: Mesh, h: int, span: nat): seq<nat>
    requires m.Valid() && h in m.order
  {
    hide Prod, Pick;
    m.Radices()[IndexOf(m.order, h) := span]
  }

  lemma CutDigits(m: Mesh, h: int, num: nat, span: nat, x: nat)
    requires Cut(m, h, num, span) && x < m.deviceNum
    ensures var b := Stretch(m, h, num, span);
            && PlaceAlong(m, h, x) / span == PartOf(x, num, b)
            && AllPos(SpanRadices(m, h, span))
            && RankInPart(x, num, b) < Prod(SpanRadices(m, h, span))
            && Digits(SpanRadices(m, h, span), RankInPart(x, num, b))
               == Digits(m.Radices(), x)[IndexOf(m.order, h) := m.Coord(h, x) % span]
  {
    hide Prod, Pick, Digits, PartOf, RankInPart;
    var p := IndexOf(m.order, h);
    CoordAt(m, p, x);
    LocalDigits(m.Radices(), p, num, span, Stretch(m, h, num, span), x);
  }

  lemma {:induction false} GroupCount(m: Mesh, h: int, num: nat, span: nat, g: nat, i: nat)
    requires Cut(m, h, num, span) && g < num && i <= m.deviceNum
    ensures |GroupBelow(m, h, span, g, i)| == CountBelow(i, num, Stretch(m, h, num, span), g)
  {
    hide Prod, Pick, Digits, PartOf, RankInPart, PlaceAlong;
    var b := Stretch(m, h, num, span);
    if i > 0 {
      GroupCount(m, h, num, span, g, i - 1);
      CutDigits(m, h, num, span, i - 1);
      CountNext(i - 1, num, b, g);
    } else {
      CountZero(num, b, g);
    }
  }

  lemma CountZero(num: nat, b: nat, g: nat)
    requires num * b >= 1
    ensures CountBelow(0, num, b, g) == 0
  {
    MulMono(0, g, b);
  }

  /** Every group of a cut into `num` has exactly the `num`-th part of the devices. */
  lemma GroupSize(m: Mesh, h: int, num: nat, span: nat, g: nat)
    requires Cut(m, h, num, span) && g < num
    ensures |Group(m, h, span, g)| * num == m.deviceNum
  {
    hide Prod, Pick;
    SizePositive(m);
    var rs, p, b := m.Radices(), IndexOf(m.order, h), Stretch(m, h, num, span);
    GroupCount(m, h, num, span, g, m.deviceNum);
    ProdSplit(rs, p);
    MulAssoc(num, span, Prod(rs[p + 1..]));
    CountAll(Prod(rs[..p]), num, b, g);
  }

  lemma CountAll(k: nat, num: nat, b: nat, g: nat)
    requires num * b >= 1
    ensures CountBelow(k * (num * b), num, b, g) * num == k * (num * b)
  {
    DivModOf(k, num * b, 0);
    MulMono(0, g, b);
    MulAssoc(k, b, num);
    MulComm(b, num);
  }

  // ---------- the local mesh of a part ----------

  function WithoutDim(order: seq<int>, h: int): seq<int> {
    if h in order then order[..IndexOf(order, h)] + order[IndexOf(order, h) + 1..] else order
  }

  function LocalStates(m: Mesh, h: int, num: int): map<int, int>
    requires h in m.states && num >= 1
  {
    if m.states[h] / num == 1 && h >= 0 then m.states - {h} else m.states[h := m.states[h] / num]
  }

  function LocalOrder(m: Mesh, h: int, num: int): seq<int>
    requires h in m.states && num >= 1
  {
    if m.states[h] / num == 1 && h >= 0 then WithoutDim(m.order, h) else m.order
  }

  function LocalMesh(m: Mesh, h: int, num: int): Mesh
    requires h in m.states && num >= 1
  {
    Build(m.deviceNum / num, LocalStates(m, h, num), LocalOrder(m, h, num), m.zero)
  }

  /** The order and radices that remain of a part: a span of 1 disappears. */
  ghost function PartOrder(m: Mesh, h: int, span: nat): seq<int> {
    if span == 1 then WithoutDim(m.order, h) else m.order
  }

  ghost function PartRadices(m: Mesh, h: int, span: nat): seq<nat>
    requires m.Valid() && h in m.order
  {
    hide Prod, Pick;
    var rs, p := SpanRadices(m, h, span), IndexOf(m.order, h);
    if span == 1 then rs[..p] + rs[p + 1..] else rs
  }

  lemma WithoutMembers(order: seq<int>, p: nat)
    requires NoDup(order) && p < |order|
    ensures NoDup(order[..p] + order[p + 1..])
    ensures forall d :: d in order[..p] + order[p + 1..] <==> d in order && d != order[p]
  {
    var o := order[..p] + order[p + 1..];
    forall d | d in order && d != order[p] ensures d in o {
      var i := IndexOf(order, d);
      assert o[if i < p then i else i - 1] == d;
    }
    forall i, j | 0 <= i < j < |o| ensures o[i] != o[j] {
      assert o[i] == order[if i < p then i else i + 1] && o[j] == order[if j < p then j else j + 1];
    }
    forall i | 0 <= i < |o| ensures o[i] in order && o[i] != order[p] {
      assert o[i] == order[if i < p then i else i + 1];
    }
  }

  lemma PartOrderMembers(m: Mesh, h: int, span: nat)
    requires m.Valid() && h in m.order
    ensures NoDup(PartOrder(m, h, span))
    ensures forall d :: d in PartOrder(m, h, span) <==> d in m.order && (d != h || span != 1)
  {
    hide Prod, Pick;
    WithoutMembers(m.order, IndexOf(m.order, h));
  }

  lemma PartHasRadices(m: Mesh, h: int, num: nat, span: nat)
    requires Cut(m, h, num, span)
    ensures HasRadices(m.states[h := span], PartOrder(m, h, span), PartRadices(m, h, span))
  {
    hide Prod, Pick, IndexOf;
    var p := IndexOf(m.order, h);
    var o, rs := PartOrder(m, h, span), PartRadices(m, h, span);
    forall i | 0 <= i < |o| ensures o[i] in m.states && m.states[h := span][o[i]] == rs[i] && rs[i] > 1 {
      var i' := if span == 1 && i >= p then i + 1 else i;
      assert o[i] == m.order[i'];
      assert i' != p ==> m.order[i'] != m.order[p];
      assert i' == p ==> span > 1;
    }
  }

  lemma PartProduct(m: Mesh, h: int, num: nat, span: nat)
    requires Cut(m, h, num, span)
    ensures AllPos(PartRadices(m, h, span))
    ensures Prod(PartRadices(m, h, span)) == m.deviceNum / num
  {
    hide Prod, Pick;
    var rs, p := m.Radices(), IndexOf(m.order, h);
    ProdSplit(rs, p);
    ProdSplit(rs[p := span], p);
    assert rs[p := span][..p] == rs[..p] && rs[p := span][p + 1..] == rs[p + 1..];
    ScaledProduct(Prod(rs[..p]), num, span, Prod(rs[p + 1..]));
    if span == 1 {
      DropOne(rs[p := span], p, 0);
    }
  }

  lemma ScaledProduct(a: nat, num: nat, span: nat, w: nat)
    requires num >= 1
    ensures ((a * (num * span)) * w) / num == (a * span) * w
  {
    MulAssoc(a, num, span);
    MulComm(a, num);
    MulAssoc(num, a, span);
    MulAssoc(num, a * span, w);
    MulComm(num, (a * span) * w);
    DivModOf((a * span) * w, num, 0);
  }

  lemma {:induction false} FilterAppend(a: seq<int>, b: seq<int>, states: map<int, int>)
    ensures FilterOrder(a + b, states) == FilterOrder(a, states) + FilterOrder(b, states)
  {
    if b == [] {
      assert a + b == a;
    } else {
      var n := |b| - 1;
      FilterAppend(a, b[..n], states);
      assert (a + b)[..|a + b| - 1] == a + b[..n];
    }
  }

  lemma FilterDrops(a: seq<int>, d: int, b: seq<int>, states: map<int, int>)
    requires forall i | 0 <= i < |a| :: a[i] in states && states[a[i]] > 1
    requires forall i | 0 <= i < |b| :: b[i] in states && states[b[i]] > 1
    requires d in states ==> states[d] <= 1
    ensures FilterOrder(a + [d] + b, states) == a + b
  {
    assert (a + [d])[..|a|] == a;
    assert FilterOrder(a + [d], states) == FilterOrder(a, states);
    FilterAppend(a + [d], b, states);
    FilterAll(a, states);
    FilterAll(b, states);
  }

  /** `get_local` of one part: a proper mesh on the part's devices with the part's radices. */
  lemma LocalIsMesh(m: Mesh, h: int, num: nat, span: nat)
    requires Cut(m, h, num, span)
    ensures m.states[h] / num == span
    ensures Buildable(m.deviceNum / num, LocalStates(m, h, num), LocalOrder(m, h, num))
    ensures LocalMesh(m, h, num).Valid()
    ensures LocalMesh(m, h, num).order == PartOrder(m, h, span)
    ensures LocalMesh(m, h, num).Radices() == PartRadices(m, h, span)
    ensures LocalMesh(m, h, num).states == Normalize(m.states[h := span])
    ensures LocalMesh(m, h, num).deviceNum == m.deviceNum / num
  {
    hide Prod, Pick, IndexOf, PartRadices, Build, Buildable, Normalize;
    MulComm(num, span);
    DivModOf(span, num, 0);
    PartOrderMembers(m, h, span);
    PartHasRadices(m, h, num, span);
    PartProduct(m, h, num, span);
    PartBuilds(m, h, num, span);
    LocalBuildsSame(m, h, num, span);
    BuildFields(m.deviceNum / num, m.states[h := span], PartOrder(m, h, span), m.zero);
  }

  lemma PartBuilds(m: Mesh, h: int, num: nat, span: nat)
    requires Cut(m, h, num, span)
    requires NoDup(PartOrder(m, h, span))
    requires forall d :: d in PartOrder(m, h, span) <==> d in m.order && (d != h || span != 1)
    requires HasRadices(m.states[h := span], PartOrder(m, h, span), PartRadices(m, h, span))
    requires Prod(PartRadices(m, h, span)) == m.deviceNum / num
    ensures Buildable(m.deviceNum / num, m.states[h := span], PartOrder(m, h, span))
    ensures var l := Build(m.deviceNum / num, m.states[h := span], PartOrder(m, h, span), m.zero);
            l.Valid() && l.order == PartOrder(m, h, span) && l.Radices() == PartRadices(m, h, span)
  {
    hide Prod, Pick, IndexOf, PartRadices, PartOrder;
    var st, o := m.states[h := span], PartOrder(m, h, span);
    assert forall k <- st :: st[k] > 1 ==> k in o;
    assert Pick(st, o) == PartRadices(m, h, span);
    hide Mesh.Valid;
    AgreeingBuild(m.deviceNum / num, st, o, m.zero);
  }

  lemma SpentIsFiltered(m: Mesh, h: int)
    requires m.Valid() && h in m.order
    ensures FilterOrder(m.order, Kept(m.states[h := 1])) == WithoutDim(m.order, h)
  {
    hide Prod, Pick, IndexOf, FilterOrder;
    var p, st := IndexOf(m.order, h), Kept(m.states[h := 1]);
    var a, b := m.order[..p], m.order[p + 1..];
    assert m.order == a + [h] + b;
    forall i | 0 <= i < |a| ensures a[i] in st && st[a[i]] > 1 {
      assert m.order[i] != m.order[p];
    }
    forall i | 0 <= i < |b| ensures b[i] in st && st[b[i]] > 1 {
      assert m.order[p + 1 + i] != m.order[p];
    }
    FilterDrops(a, h, b, st);
  }

  /** Erasing the spent dimension or leaving it with size 1 builds the same mesh. */
  lemma LocalBuildsSame(m: Mesh, h: int, num: nat, span: nat)
    requires Cut(m, h, num, span) && m.states[h] / num == span
    requires forall d :: d in PartOrder(m, h, span) <==> d in m.order && (d != h || span != 1)
    requires HasRadices(m.states[h := span], PartOrder(m, h, span), PartRadices(m, h, span))
    ensures Kept(LocalStates(m, h, num)) == Kept(m.states[h := span])
    ensures BuiltOrder(LocalStates(m, h, num), LocalOrder(m, h, num))
         == BuiltOrder(m.states[h := span], PartOrder(m, h, span))
    ensures forall n, zero :: Build(n, LocalStates(m, h, num), LocalOrder(m, h, num), zero)
                           == Build(n, m.states[h := span], PartOrder(m, h, span), zero)
    ensures forall n :: Buildable(n, m.states[h := span], PartOrder(m, h, span)) ==>
                          Buildable(n, LocalStates(m, h, num), LocalOrder(m, h, num))
  {
    hide Build, Buildable, BuiltOrder, Kept, LocalStates, LocalOrder, HasRadices, PartOrder, Prod, Pick;
    LocalKept(m, h, num, span);
    LocalOrdered(m, h, num, span);
    SameBuild(LocalStates(m, h, num), LocalOrder(m, h, num), m.states[h := span], PartOrder(m, h, span));
  }

  lemma LocalKept(m: Mesh, h: int, num: nat, span: nat)
    requires Cut(m, h, num, span) && m.states[h] / num == span
    ensures Kept(LocalStates(m, h, num)) == Kept(m.states[h := span])
  {
    hide Prod, Pick, IndexOf;
  }

  lemma LocalOrdered(m: Mesh, h: int, num: nat, span: nat)
    requires Cut(m, h, num, span) && m.states[h] / num == span
    requires forall d :: d in PartOrder(m, h, span) <==> d in m.order && (d != h || span != 1)
    requires HasRadices(m.states[h := span], PartOrder(m, h, span), PartRadices(m, h, span))
    requires Kept(LocalStates(m, h, num)) == Kept(m.states[h := span])
    ensures BuiltOrder(LocalStates(m, h, num), LocalOrder(m, h, num))
         == BuiltOrder(m.states[h := span], PartOrder(m, h, span))
    ensures forall k <- Kept(m.states[h := span]) :: k in LocalOrder(m, h, num)
  {
    hide Prod, Pick, PartRadices, FilterOrder, IndexOf;
    if span == 1 && h < 0 {
      SpentIsFiltered(m, h);
      FilterAll(PartOrder(m, h, span), Kept(m.states[h := span]));
    }
    KeptOrdered(m, h, num, span);
  }

  lemma KeptOrdered(m: Mesh, h: int, num: nat, span: nat)
    requires Cut(m, h, num, span) && m.states[h] / num == span
    requires forall d :: d in PartOrder(m, h, span) <==> d in m.order && (d != h || span != 1)
    ensures forall k <- Kept(m.states[h := span]) :: k in LocalOrder(m, h, num)
  {
    hide Prod, Pick, WithoutDim;
  }

  lemma SameBuild(st: map<int, int>, o: seq<int>, st2: map<int, int>, o2: seq<int>)
    requires Kept(st) == Kept(st2) && BuiltOrder(st, o) == BuiltOrder(st2, o2) && forall k <- Kept(st2) :: k in o
    ensures forall n, zero :: Build(n, st, o, zero) == Build(n, st2, o2, zero)
    ensures forall n :: Buildable(n, st2, o2) ==> Buildable(n, st, o)
  {
    hide Kept, BuiltOrder;
  }

  // ---------- the sub-mesh theorem ----------

  /** Rank `j` of group `g`, read through the local mesh, is the device's own place with the cut digit reduced. */
  lemma SubMeshCoords(m: Mesh, h: int, num: nat, span: nat, g: nat, j: nat)
    requires Cut(m, h, num, span) && g < num && j < |Group(m, h, span, g)|
    ensures var x, l := Group(m, h, span, g)[j], LocalMesh(m, h, num);
            && x < m.deviceNum && m.Coord(h, x) / span == g
            && l.Valid() && j < l.deviceNum
            && (forall d <- l.order ::
                  d in m.order && l.Coord(d, j) == if d == h then m.Coord(h, x) % span else m.Coord(d, x))
  {
    hide Prod, Pick, Digits, PartOf, RankInPart, CountBelow, LocalMesh, PartRadices, PartOrder;
    SizePositive(m);
    var x, l, b := Group(m, h, span, g)[j], LocalMesh(m, h, num), Stretch(m, h, num, span);
    GroupEntries(m, h, span, g, m.deviceNum);
    GroupCount(m, h, num, span, g, x);
    CutDigits(m, h, num, span, x);
    CountInPart(x, num, b);
    assert j == RankInPart(x, num, b);
    LocalIsMesh(m, h, num, span);
    GroupWithinPart(m, h, num, span, g);
    forall d | d in l.order
      ensures d in m.order && l.Coord(d, j) == if d == h then m.Coord(h, x) % span else m.Coord(d, x)
    {
      LocalCoord(m, l, h, span, x, j, d);
    }
  }

  lemma GroupWithinPart(m: Mesh, h: int, num: nat, span: nat, g: nat)
    requires Cut(m, h, num, span) && g < num
    ensures |Group(m, h, span, g)| == m.deviceNum / num
  {
    GroupSize(m, h, num, span, g);
    hide Group, Mesh.Valid;
    DivModOf(|Group(m, h, span, g)|, num, 0);
  }

  lemma SkipAt<T>(s: seq<T>, p: nat, i: nat)
    requires p < |s| && i < |s| - 1
    ensures (s[..p] + s[p + 1..])[i] == s[if i >= p then i + 1 else i]
  {
  }

  lemma LocalCoord(m: Mesh, l: Mesh, h: int, span: nat, x: nat, j: nat, d: int)
    requires m.Valid() && l.Valid() && h in m.order && span >= 1 && d in l.order
    requires l.order == PartOrder(m, h, span) && l.Radices() == PartRadices(m, h, span)
    requires AllPos(SpanRadices(m, h, span))
    requires Digits(SpanRadices(m, h, span), j)
          == Digits(m.Radices(), x)[IndexOf(m.order, h) := m.Coord(h, x) % span]
    ensures d in m.order && l.Coord(d, j) == if d == h then m.Coord(h, x) % span else m.Coord(d, x)
  {
    hide *;
    PartFacts(m, h, span);
    var p, i := IndexOf(m.order, h), IndexOf(l.order, d);
    CoordAt(l, i, j);
    if span == 1 {
      DropOne(SpanRadices(m, h, span), p, j);
      var i' := if i >= p then i + 1 else i;
      SkipAt(m.order, p, i);
      SkipAt(Digits(SpanRadices(m, h, span), j), p, i);
      OtherDim(m, i', p);
      CoordAt(m, i', x);
    } else {
      CoordAt(m, i, x);
      if i != p { OtherDim(m, i, p); }
    }
  }

  lemma PartFacts(m: Mesh, h: int, span: nat)
    requires m.Valid() && h in m.order
    ensures var rs, p := SpanRadices(m, h, span), IndexOf(m.order, h);
            && |rs| == |m.order| && rs[p] == span && |m.Radices()| == |m.order|
            && PartOrder(m, h, span) == (if span == 1 then m.order[..p] + m.order[p + 1..] else m.order)
            && PartRadices(m, h, span) == if span == 1 then rs[..p] + rs[p + 1..] else rs
  {
    hide Prod, Pick, IndexOf;
  }

  lemma OtherDim(m: Mesh, i: nat, p: nat)
    requires m.Valid() && i < |m.order| && p < |m.order| && i != p
    ensures m.order[i] != m.order[p]
  {
    hide Prod, Pick;
  }

  /** A device is in exactly the group its own coordinate names: the groups are disjoint and cover the mesh. */
  lemma GroupExact(m: Mesh, h: int, num: nat, span: nat, g: nat, x: nat)
    requires Cut(m, h, num, span)
    ensures x in Group(m, h, span, g) <==> x < m.deviceNum && m.Coord(h, x) / span == g
    ensures m.Coord(h, x) / span < num
  {
    GroupListed(m, h, span, g, x);
    hide Prod, Pick, Digits, Group;
    SpanInRange(m.Coord(h, x), num, span);
  }

  lemma SpanInRange(c: nat, num: nat, span: nat)
    requires span >= 1 && c < num * span
    ensures c / span < num
  {
    MulComm(num, span);
    DivModSmall(c, span, num);
  }

  lemma GroupListed(m: Mesh, h: int, span: nat, g: nat, x: nat)
    requires m.Valid() && span >= 1
    ensures x in Group(m, h, span, g) <==> x < m.deviceNum && PlaceAlong(m, h, x) / span == g
  {
    hide Prod, Pick, PlaceAlong;
    SizePositive(m);
    GroupEntries(m, h, span, g, m.deviceNum);
    hide Mesh.Valid, GroupBelow;
    var all := GroupBelow(m, h, span, g, m.deviceNum);
    if x in all {
      var j := IndexOf(all, x);
      assert all[j] == x;
    }
  }

  /** Groups keep the devices in their original order. */
  lemma GroupIncreasing(m: Mesh, h: int, span: nat, g: nat, i: nat, j: nat)
    requires m.Valid() && span >= 1 && i < j < |Group(m, h, span, g)|
    ensures Group(m, h, span, g)[i] < Group(m, h, span, g)[j]
  {
    hide Prod, Pick;
    SizePositive(m);
    GroupEntries(m, h, span, g, m.deviceNum);
    var x, y := Group(m, h, span, g)[i], Group(m, h, span, g)[j];
    if y <= x {
      BelowMonotone(m, h, span, g, y, x);
      assert false;
    }
  }

  lemma {:induction false} BelowMonotone(m: Mesh, h: int, span: nat, g: nat, i: nat, j: nat)
    requires m.Valid() && span >= 1 && i <= j
    ensures |GroupBelow(m, h, span, g, i)| <= |GroupBelow(m, h, span, g, j)|
  {
    if i < j { BelowMonotone(m, h, span, g, i, j - 1); }
  }
}
