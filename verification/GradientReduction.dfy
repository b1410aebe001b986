/** Adding up the gradient branches of one tensor, before or after their reducing communication. */
module GradientReduction {
  import opened Collections
  import opened MixedRadix
  import opened DeviceMesh
  import opened MeshBuilding
  import opened DigitMerging
  import opened MeshChecks

  /** One branch, device by device: the input of the communication it ends in, or its value if there is none. */
  datatype Branch<G> = Comm(src: Mesh, dst: Mesh, input: seq<G>) | Plain(src: Mesh, input: seq<G>)

  /**
   Addition of gradients, the chunk of a sum that a device keeps after a reduce-scatter, and what any
   other communication leaves on a device.
   */
  datatype Algebra<!G> = Algebra(
    plus: (G, G) -> G,
    keep: (Mesh, nat, G) -> G,
    move: (Mesh, Mesh, seq<G>, nat) -> G)

  ghost predicate Lawful<G(!new)>(a: Algebra<G>) {
    && (forall x: G, y: G, z: G :: a.plus(a.plus(x, y), z) == a.plus(x, a.plus(y, z)))
    && (forall x: G, y: G :: a.plus(x, y) == a.plus(y, x))
    && (forall m: Mesh, d: nat, x: G, y: G :: a.keep(m, d, a.plus(x, y)) == a.plus(a.keep(m, d, x), a.keep(m, d, y)))
  }

  // ---------- communications add up ----------

  /** The sum of the values at the given devices. */
  function SumAt<G>(a: Algebra<G>, vals: seq<G>, group: seq<nat>): G
    requires |group| > 0 && forall i | 0 <= i < |group| :: group[i] < |vals|
  {
    if |group| == 1 then vals[group[0]] else
      var n := |group| - 1;
      a.plus(SumAt(a, vals, group[..n]), vals[group[n]])
  }

  /** Device by device. */
  function Added<G>(a: Algebra<G>, x: seq<G>, y: seq<G>): (r: seq<G>)
    requires |x| == |y|
    ensures |r| == |x| && forall d | 0 <= d < |x| :: r[d] == a.plus(x[d], y[d])
  {
    seq(|x|, d requires 0 <= d < |x| => a.plus(x[d], y[d]))
  }

  function AddedAll<G>(a: Algebra<G>, xs: seq<seq<G>>, n: nat): (r: seq<G>)
    requires |xs| > 0 && forall i | 0 <= i < |xs| :: |xs[i]| == n
    ensures |r| == n
  {
    if |xs| == 1 then xs[0] else Added(a, AddedAll(a, xs[..|xs| - 1], n), xs[|xs| - 1])
  }

  lemma Swap<G(!new)>(a: Algebra<G>, x: G, y: G, u: G, v: G)
    requires Lawful(a)
    ensures a.plus(a.plus(x, y), a.plus(u, v)) == a.plus(a.plus(x, u), a.plus(y, v))
  {
    assert a.plus(a.plus(x, y), a.plus(u, v)) == a.plus(x, a.plus(y, a.plus(u, v)));
    assert a.plus(y, a.plus(u, v)) == a.plus(a.plus(y, u), v);
    assert a.plus(y, u) == a.plus(u, y);
    assert a.plus(a.plus(u, y), v) == a.plus(u, a.plus(y, v));
    assert a.plus(x, a.plus(u, a.plus(y, v))) == a.plus(a.plus(x, u), a.plus(y, v));
  }

  lemma {:induction false} SumAtAdds<G(!new)>(a: Algebra<G>, x: seq<G>, y: seq<G>, group: seq<nat>)
    requires Lawful(a) && |x| == |y| && |group| > 0 && forall i | 0 <= i < |group| :: group[i] < |x|
    ensures SumAt(a, Added(a, x, y), group) == a.plus(SumAt(a, x, group), SumAt(a, y, group))
  {
    if |group| > 1 {
      var n := |group| - 1;
      SumAtAdds(a, x, y, group[..n]);
      Swap(a, SumAt(a, x, group[..n]), SumAt(a, y, group[..n]), x[group[n]], y[group[n]]);
    }
  }

  ghost predicate Proper(m: Mesh) {
    m.Valid() && forall d <- m.states :: d >= PARTIAL
  }

  predicate AllReduces(m: Mesh, m2: Mesh) {
    CheckAllReduce(m, m2) == Some(true)
  }

  predicate ReduceScatters(m: Mesh, m2: Mesh) {
    CheckReduceScatter(m, m2) == Some(true)
  }

  /** Neither check raises an error. */
  predicate Checks(m: Mesh, m2: Mesh) {
    CheckAllReduce(m, m2).Some? && CheckReduceScatter(m, m2).Some?
  }

  /** Both reducing communications act on one set of devices, in groups along the partial digit. */
  lemma ReducesInGroups(m: Mesh, m2: Mesh)
    requires Proper(m) && Proper(m2) && (AllReduces(m, m2) || ReduceScatters(m, m2))
    ensures PARTIAL in m.order && m.deviceNum == m2.deviceNum
  {
    hide Prod, Pick, CheckAllReduce, CheckReduceScatter, CheckScatter, CheckAllGather, MergedAt;
    AllReduceMeansMerged(m, m2);
    ChecksMeanMerged(m, m2);
    var k :| MergedAt(m, m2, PARTIAL, k) && k != PARTIAL;
    MergedDevices(m, m2, k);
  }

  lemma MergedDevices(m: Mesh, m2: Mesh, k: int)
    requires m.Valid() && m2.Valid() && k != PARTIAL && MergedAt(m, m2, PARTIAL, k)
    ensures m.deviceNum == m2.deviceNum
  {
    hide Prod, Pick, Mesh.Valid, Mergeable, Merged, MergedOrder, MergedStates, MergedRadices;
    MergedIsMesh(m, PARTIAL, k);
    SameDevices(m2, Merged(m, PARTIAL, k));
  }

  lemma SameDevices(m: Mesh, m2: Mesh)
    requires m.Valid() && m2.Valid() && SameLayout(m, m2)
    ensures m.deviceNum == m2.deviceNum
  {
    hide Prod;
    assert m.Radices() == m2.Radices();
  }

  lemma PartialGroup(m: Mesh, d: nat)
    requires m.Valid() && PARTIAL in m.order && d < m.deviceNum
    ensures |Siblings(m, PARTIAL, d)| > 0
    ensures forall i | 0 <= i < |Siblings(m, PARTIAL, d)| :: Siblings(m, PARTIAL, d)[i] < m.deviceNum
  {
    hide Mesh.Coord, Siblings;
    assert m.states[PARTIAL] >= 1;
    forall i: nat | i < m.states[PARTIAL] ensures Siblings(m, PARTIAL, d)[i] < m.deviceNum {
      SiblingCoords(m, PARTIAL, d, i);
    }
  }

  /**
   What a communication leaves on device `d`: the sum over the devices that differ from it in the
   partial coordinate only, or its chunk of that sum; nothing is said about other communications.
   */
  ghost function SentAt<G>(a: Algebra<G>, m: Mesh, m2: Mesh, vals: seq<G>, d: nat): G
    requires Proper(m) && Proper(m2) && |vals| == m.deviceNum && d < m2.deviceNum
  {
    if AllReduces(m, m2) || ReduceScatters(m, m2) then
      ReducesInGroups(m, m2);
      PartialGroup(m, d);
      var sum := SumAt(a, vals, Siblings(m, PARTIAL, d));
      if AllReduces(m, m2) then sum else a.keep(m2, d, sum)
    else
      a.move(m, m2, vals, d)
  }

  /** Reducing a sum is the sum of the reductions, on every device. */
  lemma ReduceAdds<G(!new)>(a: Algebra<G>, m: Mesh, m2: Mesh, x: seq<G>, y: seq<G>, d: nat)
    requires Lawful(a) && Proper(m) && Proper(m2) && (AllReduces(m, m2) || ReduceScatters(m, m2))
    requires |x| == |y| == m.deviceNum && d < m2.deviceNum
    ensures SentAt(a, m, m2, Added(a, x, y), d) == a.plus(SentAt(a, m, m2, x, d), SentAt(a, m, m2, y, d))
  {
    hide Siblings, Proper, AllReduces, ReduceScatters, SumAt;
    ReducesInGroups(m, m2);
    Sibs(m, m2, d);
    SumAtAdds(a, x, y, Siblings(m, PARTIAL, d));
  }

  lemma Sibs(m: Mesh, m2: Mesh, d: nat)
    requires Proper(m) && PARTIAL in m.order && d < m.deviceNum
    ensures m.Valid() && |Siblings(m, PARTIAL, d)| > 0
    ensures forall i | 0 <= i < |Siblings(m, PARTIAL, d)| :: Siblings(m, PARTIAL, d)[i] < m.deviceNum
  {
    hide Mesh.Valid;
    PartialGroup(m, d);
  }

  lemma {:induction false} SumAtMore<G(!new)>(a: Algebra<G>, vals: seq<G>, group: seq<nat>, e: nat, y: G)
    requires Lawful(a) && |group| > 0 && (forall i | 0 <= i < |group| :: group[i] < |vals|)
    requires NoDup(group) && e < |vals|
    ensures SumAt(a, vals[e := a.plus(vals[e], y)], group)
         == if e in group then a.plus(SumAt(a, vals, group), y) else SumAt(a, vals, group)
  {
    var n := |group| - 1;
    var last := vals[group[n]];
    assert group == group[..n] + [group[n]];
    if n > 0 {
      SumAtMore(a, vals, group[..n], e, y);
      var sum := SumAt(a, vals, group[..n]);
      assert a.plus(sum, a.plus(last, y)) == a.plus(a.plus(sum, last), y);
      assert a.plus(a.plus(sum, y), last) == a.plus(a.plus(sum, last), y) by {
        assert a.plus(a.plus(sum, y), last) == a.plus(sum, a.plus(y, last));
        assert a.plus(y, last) == a.plus(last, y);
      }
    }
  }

  lemma SiblingsOnce(m: Mesh, d: nat)
    requires m.Valid() && PARTIAL in m.order && d < m.deviceNum
    ensures NoDup(Siblings(m, PARTIAL, d))
  {
    hide Siblings, Mesh.Coord;
    var g := Siblings(m, PARTIAL, d);
    assert |g| == m.states[PARTIAL];
    forall i, j | 0 <= i < j < |g| ensures g[i] != g[j] {
      SiblingCoords(m, PARTIAL, d, i);
      SiblingCoords(m, PARTIAL, d, j);
    }
  }

  /**
   What a reducing communication leaves on device `d` counts once every device that agrees with it in all but
   the partial coordinate, and no other device.
   */
  lemma EachCountsOnce<G(!new)>(a: Algebra<G>, m: Mesh, m2: Mesh, vals: seq<G>, d: nat, e: nat, y: G)
    requires Lawful(a) && Proper(m) && Proper(m2) && (AllReduces(m, m2) || ReduceScatters(m, m2))
    requires |vals| == m.deviceNum && d < m2.deviceNum && e < m.deviceNum
    ensures m.Valid()
    ensures SentAt(a, m, m2, vals[e := a.plus(vals[e], y)], d)
         == if forall k <- m.order :: k != PARTIAL ==> m.Coord(k, e) == m.Coord(k, d)
            then a.plus(SentAt(a, m, m2, vals, d), if AllReduces(m, m2) then y else a.keep(m2, d, y))
            else SentAt(a, m, m2, vals, d)
  {
    ReducesInGroups(m, m2);
    Sibs(m, m2, d);
    SiblingsExact(m, PARTIAL, d, e);
    SiblingsOnce(m, d);
    hide Siblings, Proper, AllReduces, ReduceScatters, SumAt, Mesh.Coord;
    SumAtMore(a, vals, Siblings(m, PARTIAL, d), e, y);
  }

  // ---------- what becomes of the branches ----------

  /** What comparing two layouts looks at: not the zero label. */
  predicate Same(m: Mesh, m2: Mesh) {
    m.deviceNum == m2.deviceNum && SameLayout(m, m2)
  }

  function Bare(m: Mesh): Mesh {
    Mesh(m.deviceNum, m.states, m.order, false)
  }

  lemma BareProper(m: Mesh)
    requires Proper(m)
    ensures Proper(Bare(m))
  {
    assert Bare(m).Radices() == m.Radices();
  }

  /** The branch fixes the layout all others must end in. */
  predicate Settles<G>(b: Branch<G>) {
    match b
    case Comm(m, m2, _) => AllReduces(m, m2) || ReduceScatters(m, m2)
    case Plain(m, _) => m.Dim(PARTIAL) <= 1
  }

  function End<G>(b: Branch<G>): Mesh {
    match b
    case Comm(_, m2, _) => m2
    case Plain(m, _) => m
  }

  /** The first branch that fixes the layout, if there is one. */
  function AnchorAt<G>(bs: seq<Branch<G>>): (p: nat)
    ensures p <= |bs| && (forall i | 0 <= i < p :: !Settles(bs[i])) && (p < |bs| ==> Settles(bs[p]))
  {
    if bs == [] || Settles(bs[0]) then 0 else 1 + AnchorAt(bs[1..])
  }

  function Anchor<G>(bs: seq<Branch<G>>): Option<Mesh> {
    if AnchorAt(bs) < |bs| then Some(End(bs[AnchorAt(bs)])) else None
  }

  /** A partial branch without a communication gets one to the layout fixed by the others. */
  function Patched<G>(b: Branch<G>, anchor: Option<Mesh>): Branch<G> {
    if b.Plain? && b.src.Dim(PARTIAL) > 1 && anchor.Some? then Comm(b.src, anchor.value, b.input) else b
  }

  function PatchedAll<G>(bs: seq<Branch<G>>): (r: seq<Branch<G>>)
    ensures |r| == |bs| && forall i | 0 <= i < |bs| :: r[i] == Patched(bs[i], Anchor(bs))
  {
    seq(|bs|, i requires 0 <= i < |bs| => Patched(bs[i], Anchor(bs)))
  }

  /**
   The first branch that reduces, or that has no communication and no partial digit, fixes the layout that partial
   branches without a communication are sent to.
   */
  lemma PatchedTo<G>(bs: seq<Branch<G>>, p: nat, end: Mesh)
    requires p < |bs|
    requires match bs[p]
             case Comm(m, m2, _) => (AllReduces(m, m2) || ReduceScatters(m, m2)) && end == m2
             case Plain(m, _) => m.Dim(PARTIAL) <= 1 && end == m
    requires forall i | 0 <= i < p ::
               match bs[i]
               case Comm(m, m2, _) => !AllReduces(m, m2) && !ReduceScatters(m, m2)
               case Plain(m, _) => m.Dim(PARTIAL) > 1
    ensures forall i | 0 <= i < |bs| ::
              PatchedAll(bs)[i] == match bs[i]
                                   case Comm(_, _, _) => bs[i]
                                   case Plain(m, input) => if m.Dim(PARTIAL) > 1 then Comm(m, end, input) else bs[i]
  {
    hide AllReduces, ReduceScatters, Mesh.Dim;
    assert AnchorAt(bs) == p;
    hide AnchorAt;
  }

  /** No error while branch `i` is looked at. */
  predicate StepFine<G>(bs: seq<Branch<G>>, i: nat)
    requires i < |bs|
  {
    match bs[i]
    case Comm(m, m2, _) => Checks(m, m2) && (Settles(bs[i]) ==> Same(Anchor(bs).value, m2))
    case Plain(m, _) =>
      if Settles(bs[i]) then Same(Anchor(bs).value, m)
      else AnchorAt(bs) < i && Checks(m, Anchor(bs).value)
  }

  predicate ByAllReduce<G>(b: Branch<G>) {
    b.Comm? && AllReduces(b.src, b.dst)
  }

  predicate ByReduceScatter<G>(b: Branch<G>) {
    b.Comm? && ReduceScatters(b.src, b.dst)
  }

  ghost predicate EachOrNone<G>(fs: seq<Branch<G>>, p: Branch<G> -> bool) {
    (forall i | 0 <= i < |fs| :: p(fs[i])) || (forall i | 0 <= i < |fs| :: !p(fs[i]))
  }

  /** The summed tensors have one layout: the inputs of the communications, or the ends of the branches. */
  ghost predicate OneLayout<G>(fs: seq<Branch<G>>)
    requires |fs| > 0
  {
    if ByAllReduce(fs[0]) || ByReduceScatter(fs[0])
    then forall i | 0 <= i < |fs| :: Same(fs[0].src, fs[i].src)
    else forall i | 0 <= i < |fs| :: Same(End(fs[0]), End(fs[i]))
  }

  ghost predicate AllFine<G>(bs: seq<Branch<G>>) {
    forall i | 0 <= i < |bs| :: StepFine(bs, i)
  }

  ghost predicate Unmixed<G>(fs: seq<Branch<G>>) {
    EachOrNone(fs, b => ByAllReduce(b)) && EachOrNone(fs, b => ByReduceScatter(b))
  }

  /** The lists of branches that can be added up. */
  ghost predicate Accepted<G>(bs: seq<Branch<G>>)
    requires |bs| > 0
  {
    AllFine(bs) && Unmixed(PatchedAll(bs)) && OneLayout(PatchedAll(bs))
  }

  ghost predicate ProperBranch<G>(b: Branch<G>) {
    Proper(b.src) && Proper(End(b)) && |b.input| == b.src.deviceNum
  }

  /** What a branch is worth on device `d`. */
  ghost function ValueAt<G>(a: Algebra<G>, b: Branch<G>, d: nat): G
    requires ProperBranch(b) && d < End(b).deviceNum
  {
    match b
    case Comm(m, m2, input) =>
      BareProper(m);
      BareProper(m2);
      SentAt(a, Bare(m), Bare(m2), input, d)
    case Plain(_, input) => input[d]
  }

  ghost predicate EndOver<G>(fs: seq<Branch<G>>, n: nat) {
    forall i | 0 <= i < |fs| :: ProperBranch(fs[i]) && End(fs[i]).deviceNum == n
  }

  /** The reference: every branch finished on its own, then added up. */
  ghost function TotalAt<G>(a: Algebra<G>, fs: seq<Branch<G>>, d: nat, n: nat): G
    requires |fs| > 0 && EndOver(fs, n) && d < n
  {
    if |fs| == 1 then ValueAt(a, fs[0], d)
    else a.plus(TotalAt(a, fs[..|fs| - 1], d, n), ValueAt(a, fs[|fs| - 1], d))
  }

  /** From left to right, every branch counts once. */
  lemma {:induction false} TotalIsSum<G(!new)>(a: Algebra<G>, fs: seq<Branch<G>>, d: nat, n: nat) returns (sums: seq<G>)
    requires |fs| > 0 && EndOver(fs, n) && d < n
    ensures |sums| == |fs| && sums[|fs| - 1] == TotalAt(a, fs, d, n) && sums[0] == ValueAt(a, fs[0], d)
    ensures forall i | 0 < i < |fs| :: sums[i] == a.plus(sums[i - 1], ValueAt(a, fs[i], d))
  {
    hide ValueAt, ProperBranch, End;
    if |fs| == 1 {
      sums := [ValueAt(a, fs[0], d)];
    } else {
      var k := |fs| - 1;
      var most := TotalIsSum(a, fs[..k], d, n);
      sums := most + [TotalAt(a, fs, d, n)];
    }
  }

  function Inputs<G>(fs: seq<Branch<G>>): (r: seq<seq<G>>)
    ensures |r| == |fs| && forall i | 0 <= i < |fs| :: r[i] == fs[i].input
  {
    seq(|fs|, i requires 0 <= i < |fs| => fs[i].input)
  }

  /** Communications of one kind between the same two layouts. */
  ghost predicate Alike<G>(fs: seq<Branch<G>>, m: Mesh, m2: Mesh) {
    && Proper(m) && Proper(m2) && (AllReduces(m, m2) || ReduceScatters(m, m2))
    && forall i | 0 <= i < |fs| ::
         fs[i].Comm? && Same(m, fs[i].src) && Same(m2, fs[i].dst) && |fs[i].input| == m.deviceNum
  }

  lemma SameBare(m: Mesh, m2: Mesh)
    requires Same(m, m2) && Proper(m)
    ensures Bare(m2) == Bare(m) && Proper(m2) && Proper(Bare(m)) && SameLayout(m, Bare(m))
  {
    BareProper(m);
    assert Bare(m2) == Bare(m);
    ProperOfBare(m2);
    hide Proper;
  }

  lemma ProperOfBare(m: Mesh)
    requires Proper(Bare(m))
    ensures Proper(m)
  {
    hide MixedRadix.Prod, Pick, NoDup;
    assert m.order == Bare(m).order && m.states == Bare(m).states;
  }

  lemma SameReduces(m: Mesh, m2: Mesh, n: Mesh, n2: Mesh)
    requires SameLayout(m, n) && SameLayout(m2, n2)
    ensures AllReduces(m, m2) == AllReduces(n, n2) && ReduceScatters(m, m2) == ReduceScatters(n, n2)
  {
    assert FinerDims(m2, m) == FinerDims(n2, n);
  }

  lemma AlikeAt<G>(fs: seq<Branch<G>>, m: Mesh, m2: Mesh, i: nat)
    requires Alike(fs, m, m2) && i < |fs|
    ensures ProperBranch(fs[i]) && End(fs[i]).deviceNum == m2.deviceNum && fs[i].Comm?
    ensures Bare(fs[i].src) == Bare(m) && Bare(fs[i].dst) == Bare(m2)
  {
    hide Proper, AllReduces, ReduceScatters;
    SameBare(m, fs[i].src);
    SameBare(m2, fs[i].dst);
  }

  lemma AlikeOver<G>(fs: seq<Branch<G>>, m: Mesh, m2: Mesh)
    requires Alike(fs, m, m2)
    ensures EndOver(fs, m2.deviceNum) && forall i | 0 <= i < |Inputs(fs)| :: |Inputs(fs)[i]| == m.deviceNum
  {
    hide ProperBranch, End, AllReduces, ReduceScatters, Same;
    forall i | 0 <= i < |fs| ensures ProperBranch(fs[i]) && End(fs[i]).deviceNum == m2.deviceNum {
      AlikeAt(fs, m, m2, i);
    }
  }

  /** Sum before reduce: one communication of the sum gives every device the reference value. */
  lemma {:induction false} SumBeforeReduce<G(!new)>(a: Algebra<G>, fs: seq<Branch<G>>, m: Mesh, m2: Mesh, d: nat)
    requires Lawful(a) && Alike(fs, m, m2) && |fs| > 0 && d < m2.deviceNum
    ensures EndOver(fs, m2.deviceNum) && forall i | 0 <= i < |Inputs(fs)| :: |Inputs(fs)[i]| == m.deviceNum
    ensures Proper(Bare(m)) && Proper(Bare(m2))
    ensures SentAt(a, Bare(m), Bare(m2), AddedAll(a, Inputs(fs), m.deviceNum), d) == TotalAt(a, fs, d, m2.deviceNum)
  {
    hide Proper, Lawful, SentAt, AllReduces, ReduceScatters, Inputs;
    var n := |fs| - 1;
    AlikeOver(fs, m, m2);
    SameBare(m, m);
    SameBare(m2, m2);
    LastAlike(a, fs, m, m2, d);
    if n > 0 {
      assert Alike(fs[..n], m, m2);
      SumBeforeReduce(a, fs[..n], m, m2, d);
      InputsSplit(fs, n);
      SameReduces(m, m2, Bare(m), Bare(m2));
      hide Alike;
      ReduceAdds(a, Bare(m), Bare(m2), AddedAll(a, Inputs(fs[..n]), m.deviceNum), fs[n].input, d);
    }
  }

  lemma InputsSplit<G>(fs: seq<Branch<G>>, n: nat)
    requires n < |fs|
    ensures Inputs(fs)[..n] == Inputs(fs[..n]) && Inputs(fs)[n] == fs[n].input
  {
  }

  lemma LastAlike<G>(a: Algebra<G>, fs: seq<Branch<G>>, m: Mesh, m2: Mesh, d: nat)
    requires Alike(fs, m, m2) && |fs| > 0 && d < m2.deviceNum && Proper(Bare(m)) && Proper(Bare(m2))
    requires |fs[|fs| - 1].input| == Bare(m).deviceNum && d < Bare(m2).deviceNum
    ensures ProperBranch(fs[|fs| - 1]) && End(fs[|fs| - 1]).deviceNum == m2.deviceNum
    ensures ValueAt(a, fs[|fs| - 1], d) == SentAt(a, Bare(m), Bare(m2), fs[|fs| - 1].input, d)
  {
    hide *;
    AlikeAt(fs, m, m2, |fs| - 1);
    ValueOfComm(a, fs[|fs| - 1], d);
  }

  lemma ValueOfComm<G>(a: Algebra<G>, b: Branch<G>, d: nat)
    requires b.Comm? && ProperBranch(b) && d < End(b).deviceNum
    ensures Proper(Bare(b.src)) && Proper(Bare(b.dst))
    ensures |b.input| == Bare(b.src).deviceNum && d < Bare(b.dst).deviceNum
    ensures ValueAt(a, b, d) == SentAt(a, Bare(b.src), Bare(b.dst), b.input, d)
  {
    hide Proper, SentAt, AllReduces, ReduceScatters;
    BareProper(b.src);
    BareProper(b.dst);
  }

  /** Branches with the same end, device by device. */
  ghost function Values<G>(a: Algebra<G>, fs: seq<Branch<G>>, n: nat): (r: seq<seq<G>>)
    requires EndOver(fs, n)
    ensures |r| == |fs| && forall i | 0 <= i < |fs| :: |r[i]| == n
  {
    seq(|fs|, i requires 0 <= i < |fs| => seq(n, d requires 0 <= d < n => ValueAt(a, fs[i], d)))
  }

  lemma {:induction false} ValuesAdd<G>(a: Algebra<G>, fs: seq<Branch<G>>, n: nat, d: nat)
    requires EndOver(fs, n) && |fs| > 0 && d < n
    ensures AddedAll(a, Values(a, fs, n), n)[d] == TotalAt(a, fs, d, n)
  {
    hide ProperBranch, ValueAt, End;
    var k := |fs| - 1;
    if k > 0 {
      ValuesAdd(a, fs[..k], n, d);
      assert Values(a, fs, n)[..k] == Values(a, fs[..k], n);
    }
  }

  // ---------- the reduction ----------

  ghost predicate AllProper<G>(bs: seq<Branch<G>>) {
    forall i | 0 <= i < |bs| :: ProperBranch(bs[i])
  }

  lemma PatchedProper<G>(bs: seq<Branch<G>>, i: nat)
    requires AllProper(bs) && i < |bs|
    ensures ProperBranch(PatchedAll(bs)[i])
  {
    hide Proper, AllReduces, ReduceScatters;
    assert ProperBranch(bs[i]);
    if AnchorAt(bs) < |bs| { assert ProperBranch(bs[AnchorAt(bs)]); }
  }

  /** A finished branch that reduces ends in the layout fixed by the first such branch. */
  lemma ReducedEnds<G>(bs: seq<Branch<G>>, i: nat)
    requires i < |bs| && StepFine(bs, i)
    requires ByAllReduce(PatchedAll(bs)[i]) || ByReduceScatter(PatchedAll(bs)[i])
    ensures Anchor(bs).Some? && Same(Anchor(bs).value, PatchedAll(bs)[i].dst)
  {
    hide AllReduces, ReduceScatters, AnchorAt;
  }

  /** All finished branches can be summed before one communication. */
  lemma AcceptedAlike<G>(bs: seq<Branch<G>>)
    requires AllProper(bs) && |bs| > 0 && Accepted(bs)
    requires ByAllReduce(PatchedAll(bs)[0]) || ByReduceScatter(PatchedAll(bs)[0])
    ensures Alike(PatchedAll(bs), PatchedAll(bs)[0].src, PatchedAll(bs)[0].dst)
  {
    hide Proper, AllReduces, ReduceScatters, AnchorAt, StepFine, Same, PatchedAll;
    var fs := PatchedAll(bs);
    PatchedProper(bs, 0);
    assert forall i | 0 <= i < |fs| :: ByAllReduce(fs[i]) || ByReduceScatter(fs[i]);
    forall i | 0 <= i < |fs| ensures Same(fs[0].dst, fs[i].dst) && |fs[i].input| == fs[0].src.deviceNum {
      ReducedEnds(bs, 0);
      ReducedEnds(bs, i);
      PatchedProper(bs, i);
      SameTogether(Anchor(bs).value, fs[0].dst, fs[i].dst);
      SameNumber(fs[0].src, fs[i].src);
    }
  }

  lemma SameTogether(m: Mesh, m2: Mesh, m3: Mesh)
    requires Same(m, m2) && Same(m, m3)
    ensures Same(m2, m3)
  {
  }

  lemma SameNumber(m: Mesh, m2: Mesh)
    requires Same(m, m2)
    ensures m.deviceNum == m2.deviceNum
  {
  }

  /** What an operation leaves of a branch that does not reduce. */
  function Finished<G>(a: Algebra<G>, b: Branch<G>): (r: seq<G>)
    requires End(b).deviceNum >= 0
    ensures b.Comm? ==> |r| == b.dst.deviceNum
  {
    match b
    case Comm(m, m2, input) =>
      seq(m2.deviceNum, d requires 0 <= d < m2.deviceNum => a.move(Bare(m), Bare(m2), input, d))
    case Plain(_, input) => input
  }

  lemma FinishedIs<G>(a: Algebra<G>, b: Branch<G>)
    requires ProperBranch(b) && !ByAllReduce(b) && !ByReduceScatter(b)
    ensures End(b).deviceNum >= 0 && |Finished(a, b)| == End(b).deviceNum
    ensures forall d: nat | d < End(b).deviceNum :: Finished(a, b)[d] == ValueAt(a, b, d)
  {
    hide AllReduces, ReduceScatters;
    assert End(b).deviceNum >= 0 by { assert Prod(End(b).Radices()) == End(b).deviceNum; }
    hide Proper;
    match b
    case Comm(m, m2, input) =>
      SameReduces(m, m2, Bare(m), Bare(m2));
      forall d: nat | d < m2.deviceNum ensures Finished(a, b)[d] == ValueAt(a, b, d) {
        ValueOfComm(a, b, d);
      }
    case Plain(_, _) =>
  }

  /** No error while a branch is looked at, given the layout fixed so far. */
  predicate Fine<G>(b: Branch<G>, anchor: Option<Mesh>) {
    match b
    case Comm(m, m2, _) => Checks(m, m2) && (Settles(b) && anchor.Some? ==> Same(anchor.value, m2))
    case Plain(m, _) =>
      if Settles(b) then anchor.Some? ==> Same(anchor.value, m) else anchor.Some? && Checks(m, anchor.value)
  }

  function After<G>(b: Branch<G>, anchor: Option<Mesh>): Option<Mesh> {
    if Settles(b) && anchor.None? then Some(End(b)) else anchor
  }

  function AnchorBefore<G>(bs: seq<Branch<G>>, i: nat): Option<Mesh> {
    if AnchorAt(bs) < i then Anchor(bs) else None
  }

  lemma SeenSoFar<G>(bs: seq<Branch<G>>, i: nat)
    requires i < |bs|
    ensures StepFine(bs, i) <==> Fine(bs[i], AnchorBefore(bs, i))
    ensures After(bs[i], AnchorBefore(bs, i)) == AnchorBefore(bs, i + 1)
    ensures StepFine(bs, i) ==> PatchedAll(bs)[i] == Patched(bs[i], AnchorBefore(bs, i))
  {
    hide AllReduces, ReduceScatters, Checks;
    var p := AnchorAt(bs);
    hide AnchorAt;
  }

  /** What one branch adds to the counts and to the common layout; the order of the checks is the source's. */
  method LookAt<G>(b: Branch<G>, anchor: Option<Mesh>)
    returns (ok: bool, next: Option<Mesh>, allReduces: bool, scatters: bool)
    ensures ok <==> Fine(b, anchor)
    ensures ok ==> next == After(b, anchor)
    ensures ok ==> (allReduces <==> ByAllReduce(Patched(b, anchor)))
    ensures ok ==> (scatters <==> ByReduceScatter(Patched(b, anchor)))
  {
    hide CheckAllReduce, CheckReduceScatter;
    ok, next, allReduces, scatters := false, anchor, false, false;
    var target := End(b);
    if b.Plain? && b.src.Dim(PARTIAL) <= 1 {
      if next.None? {
        next := Some(target);
      } else if !Same(next.value, target) {
        return;
      }
      ok := true;
      return;
    }
    if b.Plain? {
      if next.None? {
        return;
      }
      target := next.value;
    }
    var first := CheckAllReduce(b.src, target);
    if first.None? {
      return;
    }
    allReduces := first.value;
    if b.Comm? && allReduces {
      if next.None? {
        next := Some(target);
      } else if !Same(next.value, target) {
        return;
      }
    }
    var second := CheckReduceScatter(b.src, target);
    if second.None? {
      return;
    }
    scatters := second.value;
    if b.Comm? && scatters {
      if next.None? {
        next := Some(target);
      } else if !Same(next.value, target) {
        return;
      }
    }
    ok := true;
  }

  ghost predicate NeedsPatch<G>(b: Branch<G>) {
    b.Plain? && b.src.Dim(PARTIAL) > 1
  }

  /** How many of the first `i` elements satisfy `p`, as far as it matters: none, or all. */
  ghost predicate Counts<G>(c: nat, i: nat, fs: seq<Branch<G>>, p: Branch<G> -> bool)
    requires i <= |fs|
  {
    && c <= i
    && (c == i <==> forall j | 0 <= j < i :: p(fs[j]))
    && (c == 0 <==> forall j | 0 <= j < i :: !p(fs[j]))
  }

  lemma CountsNext<G>(c: nat, i: nat, fs: seq<Branch<G>>, p: Branch<G> -> bool)
    requires i < |fs| && Counts(c, i, fs, p)
    ensures Counts(if p(fs[i]) then c + 1 else c, i + 1, fs, p)
  {
  }

  ghost predicate IsPatchList<G>(bs: seq<Branch<G>>, patches: seq<nat>, i: nat) {
    forall j: nat :: j in patches <==> j < i && j < |bs| && NeedsPatch(bs[j])
  }

  lemma PatchListNext<G>(bs: seq<Branch<G>>, patches: seq<nat>, i: nat)
    requires i < |bs| && IsPatchList(bs, patches, i)
    ensures IsPatchList(bs, if NeedsPatch(bs[i]) then patches + [i] else patches, i + 1)
  {
    hide NeedsPatch;
  }

  /** What is known once `i` branches have been looked at. */
  ghost predicate Scanned<G>(
    bs: seq<Branch<G>>, i: nat, anchor: Option<Mesh>, patches: seq<nat>, allReduces: nat, scatters: nat)
    requires i <= |bs|
  {
    && (forall j | 0 <= j < i :: StepFine(bs, j))
    && anchor == AnchorBefore(bs, i)
    && IsPatchList(bs, patches, i)
    && Counts(allReduces, i, PatchedAll(bs), b => ByAllReduce(b))
    && Counts(scatters, i, PatchedAll(bs), b => ByReduceScatter(b))
  }

  lemma ScanStart<G>(bs: seq<Branch<G>>)
    ensures Scanned(bs, 0, None, [], 0, 0)
  {
    hide StepFine, NeedsPatch, PatchedAll;
  }

  lemma ScanNext<G>(
    bs: seq<Branch<G>>, i: nat, anchor: Option<Mesh>, patches: seq<nat>, allReduces: nat, scatters: nat)
    requires i < |bs| && Scanned(bs, i, anchor, patches, allReduces, scatters)
    ensures StepFine(bs, i) <==> Fine(bs[i], anchor)
    ensures StepFine(bs, i) ==>
              Scanned(
                bs, i + 1, After(bs[i], anchor), if NeedsPatch(bs[i]) then patches + [i] else patches,
                if ByAllReduce(Patched(bs[i], anchor)) then allReduces + 1 else allReduces,
                if ByReduceScatter(Patched(bs[i], anchor)) then scatters + 1 else scatters)
  {
    hide StepFine, Fine, After, Patched, PatchedAll, ByAllReduce, ByReduceScatter, NeedsPatch, Counts, AnchorBefore;
    hide IsPatchList;
    SeenSoFar(bs, i);
    PatchListNext(bs, patches, i);
    BothNext(allReduces, scatters, i, PatchedAll(bs));
  }

  lemma BothNext<G>(allReduces: nat, scatters: nat, i: nat, fs: seq<Branch<G>>)
    requires i < |fs|
    requires Counts(allReduces, i, fs, b => ByAllReduce(b)) && Counts(scatters, i, fs, b => ByReduceScatter(b))
    ensures Counts(if ByAllReduce(fs[i]) then allReduces + 1 else allReduces, i + 1, fs, b => ByAllReduce(b))
    ensures Counts(if ByReduceScatter(fs[i]) then scatters + 1 else scatters, i + 1, fs, b => ByReduceScatter(b))
  {
    hide Counts, ByAllReduce, ByReduceScatter;
    CountsNext(allReduces, i, fs, b => ByAllReduce(b));
    CountsNext(scatters, i, fs, b => ByReduceScatter(b));
  }

  lemma ScanEnd<G>(
    bs: seq<Branch<G>>, anchor: Option<Mesh>, patches: seq<nat>, allReduces: nat, scatters: nat)
    requires Scanned(bs, |bs|, anchor, patches, allReduces, scatters)
    ensures AllFine(bs) && anchor == Anchor(bs) && IsPatchList(bs, patches, |bs|)
    ensures Counts(allReduces, |bs|, PatchedAll(bs), b => ByAllReduce(b))
    ensures Counts(scatters, |bs|, PatchedAll(bs), b => ByReduceScatter(b))
  {
    hide StepFine, AnchorAt, NeedsPatch, Counts, IsPatchList, PatchedAll;
  }

  /** Looks at the branches in turn: their common layout, the ones to patch, and how many reduce in which way. */
  method Scan<G>(bs: seq<Branch<G>>)
    returns (ok: bool, anchor: Option<Mesh>, patches: seq<nat>, allReduces: nat, scatters: nat)
    ensures ok <==> AllFine(bs)
    ensures ok ==> anchor == Anchor(bs) && IsPatchList(bs, patches, |bs|)
    ensures ok ==> Counts(allReduces, |bs|, PatchedAll(bs), b => ByAllReduce(b))
    ensures ok ==> Counts(scatters, |bs|, PatchedAll(bs), b => ByReduceScatter(b))
  {
    hide StepFine, Fine, After, Patched, ByAllReduce, ByReduceScatter, Counts, Scanned, AnchorAt, IsPatchList;
    hide PatchedAll;
    ok, anchor, patches, allReduces, scatters := true, None, [], 0, 0;
    ScanStart(bs);
    for i := 0 to |bs|
      invariant ok && Scanned(bs, i, anchor, patches, allReduces, scatters)
    {
      var next, one, other;
      ScanNext(bs, i, anchor, patches, allReduces, scatters);
      ok, next, one, other := LookAt(bs[i], anchor);
      if !ok {
        return;
      }
      anchor := next;
      if bs[i].Plain? && bs[i].src.Dim(PARTIAL) > 1 { patches := patches + [i]; }
      if one { allReduces := allReduces + 1; }
      if other { scatters := scatters + 1; }
    }
    ScanEnd(bs, anchor, patches, allReduces, scatters);
  }

  /** The list with the first `k` listed branches patched. */
  ghost predicate PatchedUpTo<G>(bs: seq<Branch<G>>, now: seq<Branch<G>>, m2: Mesh, patches: seq<nat>, k: nat)
    requires k <= |patches|
  {
    && |now| == |bs|
    && forall i: nat | i < |bs| ::
         now[i] == if i in patches[..k] then Comm(bs[i].src, m2, bs[i].input) else bs[i]
  }

  lemma PatchNext<G>(bs: seq<Branch<G>>, now: seq<Branch<G>>, m2: Mesh, patches: seq<nat>, k: nat)
    requires k < |patches| && patches[k] < |bs| && PatchedUpTo(bs, now, m2, patches, k)
    ensures |now| == |bs| && now[patches[k]].src == bs[patches[k]].src && now[patches[k]].input == bs[patches[k]].input
    ensures var i := patches[k];
            PatchedUpTo(bs, now[i := Comm(bs[i].src, m2, bs[i].input)], m2, patches, k + 1)
  {
    assert patches[..k + 1] == patches[..k] + [patches[k]];
  }

  lemma PatchDone<G>(bs: seq<Branch<G>>, now: seq<Branch<G>>, anchor: Option<Mesh>, patches: seq<nat>)
    requires IsPatchList(bs, patches, |bs|) && anchor == Anchor(bs)
    requires if anchor.Some? then PatchedUpTo(bs, now, anchor.value, patches, |patches|) else now == bs
    ensures now == PatchedAll(bs)
  {
    hide AnchorAt, NeedsPatch, PatchedAll;
    assert patches[..|patches|] == patches;
    forall i: nat | i < |bs| ensures now[i] == PatchedAll(bs)[i] {
      PatchedBy(bs, i, anchor);
    }
  }

  /** Gives every listed branch a communication to the common layout. */
  method Patch<G>(bs: seq<Branch<G>>, anchor: Option<Mesh>, patches: seq<nat>) returns (filtered: seq<Branch<G>>)
    requires IsPatchList(bs, patches, |bs|) && anchor == Anchor(bs)
    ensures filtered == PatchedAll(bs)
  {
    hide Anchor, PatchedAll, PatchedUpTo;
    filtered := bs;
    if anchor.Some? {
      assert PatchedUpTo(bs, bs, anchor.value, patches, 0) by { NothingPatched(bs, anchor.value, patches); }
      for k := 0 to |patches|
        invariant PatchedUpTo(bs, filtered, anchor.value, patches, k)
      {
        var i := patches[k];
        assert i in patches;
        PatchNext(bs, filtered, anchor.value, patches, k);
        filtered := filtered[i := Comm(filtered[i].src, anchor.value, filtered[i].input)];
      }
    }
    PatchDone(bs, filtered, anchor, patches);
  }

  lemma NothingPatched<G>(bs: seq<Branch<G>>, m2: Mesh, patches: seq<nat>)
    ensures PatchedUpTo(bs, bs, m2, patches, 0)
  {
  }

  lemma PatchedBy<G>(bs: seq<Branch<G>>, i: nat, anchor: Option<Mesh>)
    requires i < |bs| && anchor == Anchor(bs)
    ensures PatchedAll(bs)[i] ==
            if NeedsPatch(bs[i]) && anchor.Some? then Comm(bs[i].src, anchor.value, bs[i].input) else bs[i]
  {
    hide AnchorAt;
  }

  /** A sum of tensors, which must all have the first one's layout. */
  method Sum<G>(a: Algebra<G>, layouts: seq<Mesh>, vals: seq<seq<G>>) returns (sum: Option<seq<G>>)
    requires |vals| == |layouts| > 0 && forall i | 0 <= i < |vals| :: |vals[i]| == layouts[i].deviceNum
    ensures sum.Some? <==> forall i | 0 <= i < |vals| :: Same(layouts[0], layouts[i])
    ensures sum.Some? ==> (forall i | 0 <= i < |vals| :: |vals[i]| == |vals[0]|)
                          && sum.value == AddedAll(a, vals, |vals[0]|)
  {
    var total := vals[0];
    assert vals[..1][0] == vals[0];
    for i := 1 to |vals|
      invariant forall j | 0 <= j < i :: Same(layouts[0], layouts[j])
      invariant forall j | 0 <= j < i :: |vals[..i][j]| == |vals[0]|
      invariant |total| == |vals[0]| && total == AddedAll(a, vals[..i], |vals[0]|)
    {
      if !Same(layouts[0], layouts[i]) {
        return None;
      }
      assert vals[..i + 1][..i] == vals[..i];
      total := Added(a, total, vals[i]);
    }
    assert vals[..|vals|] == vals;
    return Some(total);
  }

  /** What the reduced gradient has to be. */
  ghost predicate IsReduced<G(!new)>(a: Algebra<G>, bs: seq<Branch<G>>, r: Branch<G>) {
    var fs := PatchedAll(bs);
    && |bs| > 0 && ProperBranch(r) && Same(End(r), End(fs[0])) && EndOver(fs, End(r).deviceNum)
    && forall d: nat | d < End(r).deviceNum :: ValueAt(a, r, d) == TotalAt(a, fs, d, End(r).deviceNum)
  }

  predicate Reducing<G>(b: Branch<G>) {
    ByAllReduce(b) || ByReduceScatter(b)
  }

  lemma AllPatchedProper<G>(bs: seq<Branch<G>>)
    requires AllProper(bs)
    ensures AllProper(PatchedAll(bs))
  {
    hide ProperBranch, PatchedAll;
    forall i | 0 <= i < |bs| ensures ProperBranch(PatchedAll(bs)[i]) { PatchedProper(bs, i); }
  }

  /** Whether the counts are fit, and what they say of the first branch. */
  lemma CountsDecide<G>(fs: seq<Branch<G>>, allReduces: nat, scatters: nat)
    requires |fs| > 0
    requires Counts(allReduces, |fs|, fs, b => ByAllReduce(b)) && Counts(scatters, |fs|, fs, b => ByReduceScatter(b))
    ensures (allReduces == |fs| || allReduces == 0) && (scatters == |fs| || scatters == 0) <==> Unmixed(fs)
    ensures Unmixed(fs) ==> (allReduces != 0 || scatters != 0 <==> Reducing(fs[0]))
  {
    hide ByAllReduce, ByReduceScatter;
  }

  /** The inputs of the communications are summed, and the first one's communication follows. */
  method SumThenReduce<G>(a: Algebra<G>, fs: seq<Branch<G>>) returns (r: Option<Branch<G>>)
    requires AllProper(fs) && |fs| > 0 && Reducing(fs[0])
    ensures r.Some? <==> OneLayout(fs)
    ensures r.Some? ==> (forall i | 0 <= i < |Inputs(fs)| :: |Inputs(fs)[i]| == |fs[0].input|)
                        && r.value == Comm(fs[0].src, End(fs[0]), AddedAll(a, Inputs(fs), |fs[0].input|))
  {
    hide AllReduces, ReduceScatters, Same, Proper, AddedAll, End;
    var srcs := seq(|fs|, i requires 0 <= i < |fs| => fs[i].src);
    assert forall i | 0 <= i < |fs| :: ProperBranch(fs[i]);
    var sum := Sum(a, srcs, Inputs(fs));
    if sum.None? {
      return None;
    }
    return Some(Comm(fs[0].src, End(fs[0]), sum.value));
  }

  function AllFinished<G>(a: Algebra<G>, fs: seq<Branch<G>>): (r: seq<seq<G>>)
    requires forall i | 0 <= i < |fs| :: End(fs[i]).deviceNum >= 0
    ensures |r| == |fs| && forall i | 0 <= i < |fs| :: r[i] == Finished(a, fs[i])
  {
    seq(|fs|, i requires 0 <= i < |fs| => Finished(a, fs[i]))
  }

  ghost predicate NoneReduces<G>(fs: seq<Branch<G>>) {
    forall i | 0 <= i < |fs| :: !Reducing(fs[i])
  }

  lemma EndsFit<G>(a: Algebra<G>, fs: seq<Branch<G>>, i: nat)
    requires AllProper(fs) && NoneReduces(fs) && i < |fs|
    ensures End(fs[i]).deviceNum >= 0 && |Finished(a, fs[i])| == End(fs[i]).deviceNum
    ensures forall d: nat | d < End(fs[i]).deviceNum ::
              ProperBranch(fs[i]) && Finished(a, fs[i])[d] == ValueAt(a, fs[i], d)
  {
    hide ProperBranch, ByAllReduce, ByReduceScatter, End, Finished, ValueAt;
    FinishedIs(a, fs[i]);
  }

  /** Every branch is finished, and the results are summed. */
  method ReduceThenSum<G>(a: Algebra<G>, fs: seq<Branch<G>>) returns (r: Option<Branch<G>>)
    requires AllProper(fs) && |fs| > 0 && NoneReduces(fs)
    ensures forall i | 0 <= i < |fs| :: End(fs[i]).deviceNum >= 0
    ensures r.Some? <==> OneLayout(fs)
    ensures r.Some? ==> (forall i | 0 <= i < |fs| :: |AllFinished(a, fs)[i]| == |AllFinished(a, fs)[0]|)
                        && r.value == Plain(End(fs[0]), AddedAll(a, AllFinished(a, fs), |AllFinished(a, fs)[0]|))
  {
    hide AllProper, ByAllReduce, ByReduceScatter, Same, AddedAll, End, Finished;
    forall i | 0 <= i < |fs|
      ensures End(fs[i]).deviceNum >= 0 && |Finished(a, fs[i])| == End(fs[i]).deviceNum
    {
      EndsFit(a, fs, i);
    }
    var ends := seq(|fs|, i requires 0 <= i < |fs| => End(fs[i]));
    var sum := Sum(a, ends, AllFinished(a, fs));
    if sum.None? {
      return None;
    }
    return Some(Plain(End(fs[0]), sum.value));
  }

  lemma ReducedBefore<G(!new)>(a: Algebra<G>, bs: seq<Branch<G>>, r: Branch<G>)
    requires Lawful(a) && AllProper(bs) && |bs| > 0 && Accepted(bs) && Reducing(PatchedAll(bs)[0])
    requires var fs := PatchedAll(bs);
             (forall i | 0 <= i < |Inputs(fs)| :: |Inputs(fs)[i]| == |fs[0].input|)
             && r == Comm(fs[0].src, End(fs[0]), AddedAll(a, Inputs(fs), |fs[0].input|))
    ensures IsReduced(a, bs, r)
  {
    hide Lawful, AllProper, Accepted, Proper, AllReduces, ReduceScatters, PatchedAll, AddedAll, Inputs, SentAt;
    hide TotalAt, ValueAt;
    var fs := PatchedAll(bs);
    PatchedProper(bs, 0);
    AcceptedAlike(bs);
    var m, m2 := fs[0].src, fs[0].dst;
    AlikeOver(fs, m, m2);
    forall d: nat | d < m2.deviceNum ensures ValueAt(a, r, d) == TotalAt(a, fs, d, m2.deviceNum) {
      SumBeforeReduce(a, fs, m, m2, d);
      ValueOfComm(a, r, d);
    }
  }

  lemma ReducedAfter<G(!new)>(a: Algebra<G>, bs: seq<Branch<G>>, r: Branch<G>)
    requires AllProper(bs) && |bs| > 0 && OneLayout(PatchedAll(bs)) && NoneReduces(PatchedAll(bs))
    requires var fs := PatchedAll(bs);
             && (forall i | 0 <= i < |fs| :: End(fs[i]).deviceNum >= 0)
             && (forall i | 0 <= i < |fs| :: |AllFinished(a, fs)[i]| == |AllFinished(a, fs)[0]|)
             && r == Plain(End(fs[0]), AddedAll(a, AllFinished(a, fs), |AllFinished(a, fs)[0]|))
    ensures IsReduced(a, bs, r)
  {
    hide AllProper, ByAllReduce, ByReduceScatter, Proper, PatchedAll, AddedAll, TotalAt, ValueAt, Finished;
    var fs := PatchedAll(bs);
    AllPatchedProper(bs);
    PatchedProper(bs, 0);
    assert !Reducing(fs[0]);
    var n := End(fs[0]).deviceNum;
    EndsFit(a, fs, 0);
    forall i | 0 <= i < |fs| ensures ProperBranch(fs[i]) && End(fs[i]).deviceNum == n {
      PatchedProper(bs, i);
    }
    forall i | 0 <= i < |fs| ensures AllFinished(a, fs)[i] == Values(a, fs, n)[i] {
      EndsFit(a, fs, i);
    }
    assert AllFinished(a, fs) == Values(a, fs, n);
    forall d: nat | d < n ensures ValueAt(a, r, d) == TotalAt(a, fs, d, n) {
      ValuesAdd(a, fs, n, d);
      ValueOfPlain(a, r, d);
    }
  }

  lemma ValueOfPlain<G>(a: Algebra<G>, b: Branch<G>, d: nat)
    requires b.Plain? && ProperBranch(b) && d < End(b).deviceNum
    ensures ValueAt(a, b, d) == b.input[d]
  {
    hide Proper;
  }

  /**
   The reduction of several branches. It succeeds exactly when no check fails, the finished branches
   all reduce in the same way or none does, and what is summed has one layout; every device then ends
   up with the sum of the branches finished one by one.
   */
  method ReduceBranches<G(!new)>(a: Algebra<G>, bs: seq<Branch<G>>) returns (result: Option<Branch<G>>)
    requires Lawful(a) && AllProper(bs) && |bs| > 1
    ensures result.Some? <==> Accepted(bs)
    ensures result.Some? ==> IsReduced(a, bs, result.value)
  {
    hide Lawful, AllProper, AllFine, PatchedAll, IsReduced, OneLayout, Unmixed, NeedsPatch, Counts, Reducing;
    hide NoneReduces;
    var ok, anchor, patches, allReduces, scatters := Scan(bs);
    if !ok {
      return None;
    }
    var filtered := Patch(bs, anchor, patches);
    CountsDecide(filtered, allReduces, scatters);
    if !((allReduces == |bs| || allReduces == 0) && (scatters == |bs| || scatters == 0)) {
      return None;
    }
    AllPatchedProper(bs);
    if allReduces != 0 || scatters != 0 {
      result := SumThenReduce(a, filtered);
      if result.Some? { ReducedBefore(a, bs, result.value); }
    } else {
      FirstDecides(filtered);
      result := ReduceThenSum(a, filtered);
      if result.Some? { ReducedAfter(a, bs, result.value); }
    }
  }

  lemma FirstDecides<G>(fs: seq<Branch<G>>)
    requires Unmixed(fs) && |fs| > 0 && !Reducing(fs[0])
    ensures NoneReduces(fs)
  {
    hide ByAllReduce, ByReduceScatter;
    assert !(b => ByAllReduce(b))(fs[0]) && !(b => ByReduceScatter(b))(fs[0]);
  }

  /** A branch without a communication that can be added to a first one that is not partial. */
  predicate Joins(m: Mesh, first: Mesh) {
    if m.Dim(PARTIAL) <= 1 then Same(first, m)
    else Checks(m, first) && !AllReduces(m, first) && !ReduceScatters(m, first)
  }

  function PlainPatched<G>(b: Branch<G>, first: Mesh): Branch<G> {
    if b.src.Dim(PARTIAL) > 1 then Comm(b.src, first, b.input) else b
  }

  lemma NotFine<G>(bs: seq<Branch<G>>, i: nat)
    requires i < |bs| && !StepFine(bs, i)
    ensures !AllFine(bs)
  {
    hide StepFine;
  }

  lemma PlainAt<G>(bs: seq<Branch<G>>, i: nat)
    requires i < |bs| && bs[0].Plain? && bs[0].src.Dim(PARTIAL) <= 1 && bs[i].Plain?
    ensures PatchedAll(bs)[i] == PlainPatched(bs[i], bs[0].src)
    ensures StepFine(bs, i) <==>
            if bs[i].src.Dim(PARTIAL) <= 1 then Same(bs[0].src, bs[i].src) else i > 0 && Checks(bs[i].src, bs[0].src)
  {
    hide AllReduces, ReduceScatters, Checks, Same, Mesh.Dim;
    assert AnchorAt(bs) == 0;
    hide AnchorAt;
  }

  lemma PlainFine<G>(bs: seq<Branch<G>>)
    requires |bs| > 0 && (forall i | 0 <= i < |bs| :: bs[i].Plain?) && bs[0].src.Dim(PARTIAL) <= 1
    ensures AllFine(bs) <==> forall i | 0 <= i < |bs| ::
              if bs[i].src.Dim(PARTIAL) <= 1 then Same(bs[0].src, bs[i].src) else Checks(bs[i].src, bs[0].src)
  {
    hide AllReduces, ReduceScatters, Checks, Same, StepFine, Mesh.Dim;
    forall i | 0 <= i < |bs|
      ensures StepFine(bs, i) <==>
              if bs[i].src.Dim(PARTIAL) <= 1 then Same(bs[0].src, bs[i].src) else Checks(bs[i].src, bs[0].src)
    {
      PlainAt(bs, i);
    }
  }

  lemma PlainEnds<G>(bs: seq<Branch<G>>, fs: seq<Branch<G>>)
    requires |bs| > 0 && (forall i | 0 <= i < |bs| :: bs[i].Plain?) && bs[0].src.Dim(PARTIAL) <= 1 && |fs| == |bs|
    requires forall i | 0 <= i < |bs| :: fs[i] == PlainPatched(bs[i], bs[0].src)
    ensures Unmixed(fs) <==> NoneReduces(fs)
    ensures NoneReduces(fs) <==> forall i | 0 <= i < |bs| :: bs[i].src.Dim(PARTIAL) > 1 ==>
              !AllReduces(bs[i].src, bs[0].src) && !ReduceScatters(bs[i].src, bs[0].src)
    ensures OneLayout(fs) <==> forall i | 0 <= i < |bs| :: bs[i].src.Dim(PARTIAL) <= 1 ==> Same(bs[0].src, bs[i].src)
  {
    hide AllReduces, ReduceScatters, SameLayout, Mesh.Dim;
    assert !Reducing(fs[0]) && End(fs[0]) == bs[0].src;
    if Unmixed(fs) { FirstDecides(fs); }
    if NoneReduces(fs) { NoneUnmixed(fs); }
    forall i | 0 <= i < |bs|
      ensures Reducing(fs[i]) <==> bs[i].src.Dim(PARTIAL) > 1
                                   && (AllReduces(bs[i].src, bs[0].src) || ReduceScatters(bs[i].src, bs[0].src))
      ensures Same(bs[0].src, End(fs[i])) <==> bs[i].src.Dim(PARTIAL) > 1 || Same(bs[0].src, bs[i].src)
    {
      PlainReduces(bs[i], bs[0].src);
    }
    hide Reducing, Same, Unmixed;
  }

  lemma PlainReduces<G>(b: Branch<G>, first: Mesh)
    requires b.Plain?
    ensures Reducing(PlainPatched(b, first)) <==>
            b.src.Dim(PARTIAL) > 1 && (AllReduces(b.src, first) || ReduceScatters(b.src, first))
    ensures Same(first, End(PlainPatched(b, first))) <==> b.src.Dim(PARTIAL) > 1 || Same(first, b.src)
  {
    hide AllReduces, ReduceScatters;
  }

  lemma NoneUnmixed<G>(fs: seq<Branch<G>>)
    requires NoneReduces(fs)
    ensures Unmixed(fs)
  {
    hide ByAllReduce, ByReduceScatter;
  }

  /**
   Branches without communications are added up exactly when the first is not partial, the others that
   are not partial have its layout, and no partial one would reduce to it: the communication put in to
   turn a partial branch into the duplicate state of the others is refused.
   */
  lemma PlainBranchesIff<G>(bs: seq<Branch<G>>)
    requires |bs| > 0 && forall i | 0 <= i < |bs| :: bs[i].Plain?
    ensures Accepted(bs) <==>
            bs[0].src.Dim(PARTIAL) <= 1 && forall i | 0 <= i < |bs| :: Joins(bs[i].src, bs[0].src)
  {
    hide AllReduces, ReduceScatters, Checks, Same, PatchedAll, AllFine, Unmixed, OneLayout;
    if bs[0].src.Dim(PARTIAL) > 1 {
      assert !StepFine(bs, 0);
      NotFine(bs, 0);
    } else {
      forall i | 0 <= i < |bs| ensures PatchedAll(bs)[i] == PlainPatched(bs[i], bs[0].src) { PlainAt(bs, i); }
      PlainFine(bs);
      PlainEnds(bs, PatchedAll(bs));
    }
  }

  /**
   Branches that all end in communications are added up exactly when no check fails, all or none are all-reduces,
   all or none are reduce-scatters, they end in one layout and, if they reduce, start from one.
   */
  lemma CommBranchesIff<G>(bs: seq<Branch<G>>)
    requires |bs| > 0 && forall i | 0 <= i < |bs| :: bs[i].Comm?
    ensures Accepted(bs) <==>
            && (forall i | 0 <= i < |bs| :: Checks(bs[i].src, bs[i].dst) && Same(bs[0].dst, bs[i].dst))
            && (forall i | 0 <= i < |bs| ::
                  && (AllReduces(bs[i].src, bs[i].dst) <==> AllReduces(bs[0].src, bs[0].dst))
                  && (ReduceScatters(bs[i].src, bs[i].dst) <==> ReduceScatters(bs[0].src, bs[0].dst)))
            && (AllReduces(bs[0].src, bs[0].dst) || ReduceScatters(bs[0].src, bs[0].dst) ==>
                  forall i | 0 <= i < |bs| :: Same(bs[0].src, bs[i].src))
  {
    assert PatchedAll(bs) == bs by { hide AllReduces, ReduceScatters; }
    hide *;
    UnmixedIff(bs);
    AcceptedIs(bs);
    if Unmixed(bs) {
      CommFine(bs);
      CommLayout(bs);
    }
  }

  lemma AcceptedIs<G>(bs: seq<Branch<G>>)
    requires |bs| > 0
    ensures Accepted(bs) <==> AllFine(bs) && Unmixed(PatchedAll(bs)) && OneLayout(PatchedAll(bs))
  {
    hide AllFine, Unmixed, OneLayout, PatchedAll;
  }

  lemma CommFine<G>(bs: seq<Branch<G>>)
    requires |bs| > 0 && (forall i | 0 <= i < |bs| :: bs[i].Comm?)
    requires forall i | 0 <= i < |bs| ::
               && (AllReduces(bs[i].src, bs[i].dst) <==> AllReduces(bs[0].src, bs[0].dst))
               && (ReduceScatters(bs[i].src, bs[i].dst) <==> ReduceScatters(bs[0].src, bs[0].dst))
    ensures AllFine(bs) <==> forall i | 0 <= i < |bs| ::
              && Checks(bs[i].src, bs[i].dst)
              && (AllReduces(bs[0].src, bs[0].dst) || ReduceScatters(bs[0].src, bs[0].dst) ==>
                    Same(bs[0].dst, bs[i].dst))
  {
    hide AllReduces, ReduceScatters, Checks, Same;
    assert Settles(bs[0]) ==> AnchorAt(bs) == 0;
    hide AnchorAt;
    forall i | 0 <= i < |bs|
      ensures StepFine(bs, i) <==> Checks(bs[i].src, bs[i].dst) && (Settles(bs[0]) ==> Same(bs[0].dst, bs[i].dst))
    {
    }
    hide StepFine;
  }

  lemma CommLayout<G>(bs: seq<Branch<G>>)
    requires |bs| > 0 && (forall i | 0 <= i < |bs| :: bs[i].Comm?)
    ensures OneLayout(bs) <==>
            forall i | 0 <= i < |bs| ::
              if AllReduces(bs[0].src, bs[0].dst) || ReduceScatters(bs[0].src, bs[0].dst)
              then Same(bs[0].src, bs[i].src) else Same(bs[0].dst, bs[i].dst)
  {
    hide AllReduces, ReduceScatters, Same;
  }

  lemma UnmixedIff<G>(bs: seq<Branch<G>>)
    requires |bs| > 0 && forall i | 0 <= i < |bs| :: bs[i].Comm?
    ensures Unmixed(bs) <==>
            forall i | 0 <= i < |bs| ::
              && (AllReduces(bs[i].src, bs[i].dst) <==> AllReduces(bs[0].src, bs[0].dst))
              && (ReduceScatters(bs[i].src, bs[i].dst) <==> ReduceScatters(bs[0].src, bs[0].dst))
  {
    hide AllReduces, ReduceScatters;
  }

  const TWO_COPIES: Mesh := Mesh(2, map[PARTIAL := 1, DUPLICATE := 2], [DUPLICATE], false)
  const TWO_PARTS: Mesh := Mesh(2, map[PARTIAL := 2, DUPLICATE := 1], [PARTIAL], false)

  /** A duplicate branch and then a partial one over the same two devices are refused. */
  lemma PartialBesideDuplicate<G>(x: seq<G>, y: seq<G>)
    requires |x| == |y| == 2
    ensures AllProper([Plain(TWO_COPIES, x), Plain(TWO_PARTS, y)])
    ensures !Accepted([Plain(TWO_COPIES, x), Plain(TWO_PARTS, y)])
  {
    var bs := [Plain(TWO_COPIES, x), Plain(TWO_PARTS, y)];
    TwoProper();
    PartsReduceToCopies();
    assert bs[1].src == TWO_PARTS && TWO_PARTS.Dim(PARTIAL) == 2;
    hide AllReduces, ReduceScatters, Checks, Accepted, Proper;
    assert !Joins(bs[1].src, bs[0].src);
    PlainBranchesIff(bs);
  }

  lemma TwoProper()
    ensures Proper(TWO_COPIES) && Proper(TWO_PARTS)
  {
    assert [2][..0] == [] && Prod([]) == 1;
    assert Prod([2]) == 2;
    assert TWO_COPIES.Radices() == [2] && TWO_PARTS.Radices() == [2];
  }

  lemma PartsReduceToCopies()
    ensures AllReduces(TWO_PARTS, TWO_COPIES)
  {
    var m := TWO_PARTS;
    hide Renumbered, CombinedStates, CombinedOrder;
    CombinedStatesOfOne(PARTIAL, DUPLICATE, m.states);
    SpecialRenumbersNothing(PARTIAL, DUPLICATE, m.order);
    assert MergedOrder(m.order, PARTIAL, DUPLICATE) == [DUPLICATE];
  }
}
