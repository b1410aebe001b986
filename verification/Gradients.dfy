/** Reverse accumulation, and the sum over paths it computes. */
module ReverseMode {
  import opened Collections

  datatype GraphOp = GraphOp(ins: seq<nat>, outs: seq<nat>)

  /**
   Operations in topological order with linear gradients: `pull(k, i, j, g)` is what output `j`'s
   gradient `g` contributes to input `i` of operation `k`; where `linked` is false the operation
   has no gradient for that pair.
   */
  datatype Net<!G> = Net(ops: seq<GraphOp>, linked: (nat, nat, nat) -> bool, pull: (nat, nat, nat, G) -> G,
                         plus: (G, G) -> G, onesLike: nat -> G)

  /** A way from a tensor to one of the `ys`: operations passed, by input and output position. */
  datatype Edge = Edge(op: nat, inp: nat, out: nat)
  datatype Path = Path(edges: seq<Edge>, seed: nat)

  ghost predicate Linear<G(!new)>(n: Net<G>) {
    && (forall a: G, b: G, c: G :: n.plus(n.plus(a, b), c) == n.plus(a, n.plus(b, c)))
    && (forall k: nat, i: nat, j: nat, a: G, b: G ::
          n.pull(k, i, j, n.plus(a, b)) == n.plus(n.pull(k, i, j, a), n.pull(k, i, j, b)))
  }

  /** Tensors made by the first `k` operations. */
  function Made(ops: seq<GraphOp>, k: nat): seq<nat>
    requires k <= |ops|
  {
    if k == 0 then [] else Made(ops, k - 1) + ops[k - 1].outs
  }

  /** Every tensor is made once, before it is used; the order contains the makers of `ys`. */
  ghost predicate Topological<G>(n: Net<G>, ys: seq<nat>) {
    && NoDup(Made(n.ops, |n.ops|))
    && (forall k, i | 0 <= k < |n.ops| && 0 <= i < |n.ops[k].ins| :: n.ops[k].ins[i] in Made(n.ops, k))
    && (forall s | 0 <= s < |ys| :: ys[s] in Made(n.ops, |n.ops|))
  }

  // ---------- sums where undefined means nothing to add ----------

  function Plus<G>(n: Net<G>, a: Option<G>, b: Option<G>): Option<G> {
    if a.None? then b else if b.None? then a else Some(n.plus(a.value, b.value))
  }

  /** The sum of a list, undefined for the empty one. */
  function Sum<G>(n: Net<G>, gs: seq<G>): (r: Option<G>)
    ensures r.None? <==> gs == []
  {
    if gs == [] then None else Plus(n, Sum(n, gs[..|gs| - 1]), Some(gs[|gs| - 1]))
  }

  lemma {:induction false} SumAppend<G(!new)>(n: Net<G>, a: seq<G>, b: seq<G>)
    requires Linear(n)
    ensures Sum(n, a + b) == Plus(n, Sum(n, a), Sum(n, b))
  {
    if b == [] {
      assert a + b == a;
    } else {
      assert (a + b)[..|a + b| - 1] == a + b[..|b| - 1];
      SumAppend(n, a, b[..|b| - 1]);
      PlusAssoc(n, Sum(n, a), Sum(n, b[..|b| - 1]), Some(b[|b| - 1]));
    }
  }

  lemma PlusAssoc<G(!new)>(n: Net<G>, a: Option<G>, b: Option<G>, c: Option<G>)
    requires Linear(n)
    ensures Plus(n, Plus(n, a, b), c) == Plus(n, a, Plus(n, b, c))
  {
  }

  // ---------- all paths from a tensor ----------

  ghost predicate IsPath<G>(n: Net<G>, ys: seq<nat>, t: nat, p: Path)
    decreases |p.edges|
  {
    p.seed < |ys| &&
    if p.edges == [] then ys[p.seed] == t else
      var e := p.edges[0];
      && e.op < |n.ops| && e.inp < |n.ops[e.op].ins| && e.out < |n.ops[e.op].outs|
      && n.ops[e.op].ins[e.inp] == t && n.linked(e.op, e.inp, e.out)
      && IsPath(n, ys, n.ops[e.op].outs[e.out], Path(p.edges[1..], p.seed))
  }

  /** The gradient arriving along one path: the seed pulled back edge by edge. */
  function PathGrad<G>(n: Net<G>, seeds: seq<G>, p: Path): G
    requires p.seed < |seeds|
    decreases |p.edges|
  {
    if p.edges == [] then seeds[p.seed] else
      var e := p.edges[0];
      n.pull(e.op, e.inp, e.out, PathGrad(n, seeds, Path(p.edges[1..], p.seed)))
  }

  function Cons(e: Edge, p: Path): Path {
    Path([e] + p.edges, p.seed)
  }

  function ConsAll(e: Edge, ps: seq<Path>): (r: seq<Path>)
    ensures |r| == |ps| && forall i | 0 <= i < |ps| :: r[i] == Cons(e, ps[i])
  {
    seq(|ps|, i requires 0 <= i < |ps| => Cons(e, ps[i]))
  }

  /** The paths without edges: one per occurrence of `t` among the first `s` of the `ys`. */
  function SeedPaths(ys: seq<nat>, t: nat, s: nat): seq<Path>
    requires s <= |ys|
  {
    if s == 0 then [] else SeedPaths(ys, t, s - 1) + (if ys[s - 1] == t then [Path([], s - 1)] else [])
  }

  /** The paths from `t` whose operations all have index `k` or more, later first steps first. */
  function PathsFrom<G>(n: Net<G>, ys: seq<nat>, t: nat, k: nat): seq<Path>
    requires k <= |n.ops|
    decreases |n.ops| - k, 1, 0, 0
  {
    if k == |n.ops| then SeedPaths(ys, t, |ys|) else PathsFrom(n, ys, t, k + 1) + Via(n, ys, t, k, |n.ops[k].ins|)
  }

  /** Those that start with operation `k` through one of its first `i` inputs. */
  function Via<G>(n: Net<G>, ys: seq<nat>, t: nat, k: nat, i: nat): seq<Path>
    requires k < |n.ops| && i <= |n.ops[k].ins|
    decreases |n.ops| - k, 0, i, 0
  {
    if i == 0 then [] else
      Via(n, ys, t, k, i - 1) + if n.ops[k].ins[i - 1] == t then Through(n, ys, k, i - 1, |n.ops[k].outs|) else []
  }

  /** Those through input `i` and one of the first `j` outputs. */
  function Through<G>(n: Net<G>, ys: seq<nat>, k: nat, i: nat, j: nat): seq<Path>
    requires k < |n.ops| && i < |n.ops[k].ins| && j <= |n.ops[k].outs|
    decreases |n.ops| - k, 0, i, j
  {
    if j == 0 then [] else
      Through(n, ys, k, i, j - 1)
      + if n.linked(k, i, j - 1) then ConsAll(Edge(k, i, j - 1), PathsFrom(n, ys, n.ops[k].outs[j - 1], k + 1)) else []
  }

  function Grads<G>(n: Net<G>, seeds: seq<G>, ps: seq<Path>): (r: seq<G>)
    requires forall i | 0 <= i < |ps| :: ps[i].seed < |seeds|
    ensures |r| == |ps| && forall i | 0 <= i < |ps| :: r[i] == PathGrad(n, seeds, ps[i])
  {
    seq(|ps|, i requires 0 <= i < |ps| => PathGrad(n, seeds, ps[i]))
  }

  predicate Seeded(ps: seq<Path>, m: nat) {
    forall i | 0 <= i < |ps| :: ps[i].seed < m
  }

  lemma {:induction false} SeedPathsSeeded(ys: seq<nat>, t: nat, s: nat)
    requires s <= |ys|
    ensures Seeded(SeedPaths(ys, t, s), |ys|)
  {
    if s > 0 { SeedPathsSeeded(ys, t, s - 1); }
  }

  lemma {:induction false} PathsSeeded<G>(n: Net<G>, ys: seq<nat>, t: nat, k: nat)
    requires k <= |n.ops|
    ensures Seeded(PathsFrom(n, ys, t, k), |ys|)
    decreases |n.ops| - k, 1, 0, 0
  {
    if k == |n.ops| {
      SeedPathsSeeded(ys, t, |ys|);
    } else {
      PathsSeeded(n, ys, t, k + 1);
      ViaSeeded(n, ys, t, k, |n.ops[k].ins|);
    }
  }

  lemma {:induction false} ViaSeeded<G>(n: Net<G>, ys: seq<nat>, t: nat, k: nat, i: nat)
    requires k < |n.ops| && i <= |n.ops[k].ins|
    ensures Seeded(Via(n, ys, t, k, i), |ys|)
    decreases |n.ops| - k, 0, i, 0
  {
    if i > 0 {
      ViaSeeded(n, ys, t, k, i - 1);
      ThroughSeeded(n, ys, k, i - 1, |n.ops[k].outs|);
    }
  }

  lemma {:induction false} ThroughSeeded<G>(n: Net<G>, ys: seq<nat>, k: nat, i: nat, j: nat)
    requires k < |n.ops| && i < |n.ops[k].ins| && j <= |n.ops[k].outs|
    ensures Seeded(Through(n, ys, k, i, j), |ys|)
    decreases |n.ops| - k, 0, i, j
  {
    if j > 0 {
      ThroughSeeded(n, ys, k, i, j - 1);
      PathsSeeded(n, ys, n.ops[k].outs[j - 1], k + 1);
    }
  }

  /** The gradient of `t` by definition: the sum over its paths that use operations from `k` on. */
  function PathSum<G>(n: Net<G>, ys: seq<nat>, seeds: seq<G>, t: nat, k: nat): Option<G>
    requires k <= |n.ops| && |seeds| == |ys|
  {
    PathsSeeded(n, ys, t, k);
    Sum(n, Grads(n, seeds, PathsFrom(n, ys, t, k)))
  }

  // ---------- the list of paths is exact ----------

  lemma {:induction false} SeedPathsExact(ys: seq<nat>, t: nat, s: nat, p: Path)
    requires s <= |ys|
    ensures p in SeedPaths(ys, t, s) <==> p.edges == [] && p.seed < s && ys[p.seed] == t
  {
    if s > 0 { SeedPathsExact(ys, t, s - 1, p); }
  }

  lemma InConsAll(e: Edge, ps: seq<Path>, p: Path)
    ensures p in ConsAll(e, ps) <==> p.edges != [] && p.edges[0] == e && Path(p.edges[1..], p.seed) in ps
  {
    var r := ConsAll(e, ps);
    if p in r {
      var i := IndexOf(r, p);
      assert p == Cons(e, ps[i]) && p.edges[1..] == ps[i].edges;
    }
    if p.edges != [] && p.edges[0] == e && Path(p.edges[1..], p.seed) in ps {
      var i := IndexOf(ps, Path(p.edges[1..], p.seed));
      assert p.edges == [e] + p.edges[1..];
      assert r[i] == p;
    }
  }

  /** Operations that take a tensor made by operation `k` come after `k`. */
  lemma UsersComeLater<G>(n: Net<G>, ys: seq<nat>, k: nat, j: nat, l: nat, i: nat)
    requires Topological(n, ys) && k < |n.ops| && j < |n.ops[k].outs| && l < |n.ops| && i < |n.ops[l].ins|
    requires n.ops[l].ins[i] == n.ops[k].outs[j]
    ensures l > k
  {
    var t := n.ops[k].outs[j];
    MadeNew(n.ops, k, t);
    if l <= k { MadeGrows(n.ops, l, k, t); }
  }

  /** What operation `k` makes was not made before. */
  lemma MadeNew(ops: seq<GraphOp>, k: nat, t: nat)
    requires NoDup(Made(ops, |ops|)) && k < |ops| && t in ops[k].outs
    ensures t !in Made(ops, k)
  {
    MadeNext(ops, k);
    hide *;
    MadePrefix(ops, k + 1, |ops|);
    NotBefore(Made(ops, |ops|), Made(ops, k), ops[k].outs, t);
  }

  lemma MadeNext(ops: seq<GraphOp>, k: nat)
    requires k < |ops|
    ensures Made(ops, k + 1) == Made(ops, k) + ops[k].outs
  {
  }

  lemma NotBefore(all: seq<nat>, a: seq<nat>, b: seq<nat>, t: nat)
    requires NoDup(all) && |a + b| <= |all| && all[..|a + b|] == a + b && t in b
    ensures t !in a
  {
    hide NoDup;
    var c := all[|a + b|..];
    assert all == all[..|a + b|] + c;
    NoDupMiddle(a, b, c, t);
  }

  lemma {:induction false} MadeGrows(ops: seq<GraphOp>, a: nat, b: nat, t: nat)
    requires a <= b <= |ops|
    ensures t in Made(ops, a) ==> t in Made(ops, b)
  {
    if a < b { MadeGrows(ops, a, b - 1, t); }
  }

  lemma OutputIsMade(ops: seq<GraphOp>, k: nat, t: nat)
    requires k < |ops| && t in ops[k].outs
    ensures t in Made(ops, |ops|)
  {
    MadeNext(ops, k);
    MadeGrows(ops, k + 1, |ops|, t);
  }

  lemma {:induction false} MadePrefix(ops: seq<GraphOp>, a: nat, b: nat)
    requires a <= b <= |ops|
    ensures |Made(ops, a)| <= |Made(ops, b)| && Made(ops, b)[..|Made(ops, a)|] == Made(ops, a)
  {
    if a < b { MadePrefix(ops, a, b - 1); }
  }

  lemma {:induction false} PathsExact<G>(n: Net<G>, ys: seq<nat>, t: nat, k: nat, p: Path)
    requires Topological(n, ys) && k <= |n.ops|
    ensures p in PathsFrom(n, ys, t, k) <==> IsPath(n, ys, t, p) && (p.edges != [] ==> p.edges[0].op >= k)
    decreases |n.ops| - k, 1, 0, 0
  {
    if k == |n.ops| {
      SeedPathsExact(ys, t, |ys|, p);
    } else {
      PathsExact(n, ys, t, k + 1, p);
      ViaExact(n, ys, t, k, |n.ops[k].ins|, p);
    }
  }

  lemma {:induction false} ViaExact<G>(n: Net<G>, ys: seq<nat>, t: nat, k: nat, i: nat, p: Path)
    requires Topological(n, ys) && k < |n.ops| && i <= |n.ops[k].ins|
    ensures p in Via(n, ys, t, k, i) <==>
            IsPath(n, ys, t, p) && p.edges != [] && p.edges[0].op == k && p.edges[0].inp < i
    decreases |n.ops| - k, 0, i, 0
  {
    if i > 0 {
      ViaExact(n, ys, t, k, i - 1, p);
      ThroughExact(n, ys, k, i - 1, |n.ops[k].outs|, p);
    }
  }

  lemma {:induction false} ThroughExact<G>(n: Net<G>, ys: seq<nat>, k: nat, i: nat, j: nat, p: Path)
    requires Topological(n, ys) && k < |n.ops| && i < |n.ops[k].ins| && j <= |n.ops[k].outs|
    ensures p in Through(n, ys, k, i, j) <==>
            IsPath(n, ys, n.ops[k].ins[i], p) && p.edges != [] && p.edges[0].op == k && p.edges[0].inp == i
            && p.edges[0].out < j
    decreases |n.ops| - k, 0, i, j
  {
    hide Topological, PathsFrom;
    if j > 0 {
      ThroughExact(n, ys, k, i, j - 1, p);
      InConsAll(Edge(k, i, j - 1), PathsFrom(n, ys, n.ops[k].outs[j - 1], k + 1), p);
      if p.edges != [] && p.edges[0] == Edge(k, i, j - 1) {
        var q := Path(p.edges[1..], p.seed);
        PathsExact(n, ys, n.ops[k].outs[j - 1], k + 1, q);
        if IsPath(n, ys, n.ops[k].outs[j - 1], q) && q.edges != [] {
          UsersComeLater(n, ys, k, j - 1, q.edges[0].op, q.edges[0].inp);
        }
      }
    }
  }

  // ---------- each path is listed once ----------

  lemma NoDupAppend<T>(a: seq<T>, b: seq<T>)
    requires NoDup(a) && NoDup(b) && forall x | x in a :: x !in b
    ensures NoDup(a + b)
  {
    var r := a + b;
    forall i, j | 0 <= i < j < |r| ensures r[i] != r[j] {
      if i < |a| <= j {
        var x := r[i];
        assert x == a[i] && x in a && r[j] == b[j - |a|];
      }
    }
  }

  lemma {:induction false} SeedPathsOnce(ys: seq<nat>, t: nat, s: nat)
    requires s <= |ys|
    ensures NoDup(SeedPaths(ys, t, s))
  {
    if s > 0 {
      SeedPathsOnce(ys, t, s - 1);
      SeedPathsExact(ys, t, s - 1, Path([], s - 1));
    }
  }

  /** An input used several times contributes once per use: the list names every path exactly once. */
  lemma {:induction false} PathsOnce<G>(n: Net<G>, ys: seq<nat>, t: nat, k: nat)
    requires Topological(n, ys) && k <= |n.ops|
    ensures NoDup(PathsFrom(n, ys, t, k))
    decreases |n.ops| - k, 1, 0, 0
  {
    if k == |n.ops| {
      SeedPathsOnce(ys, t, |ys|);
    } else {
      PathsOnce(n, ys, t, k + 1);
      ViaOnce(n, ys, t, k, |n.ops[k].ins|);
      forall p | p in PathsFrom(n, ys, t, k + 1) ensures p !in Via(n, ys, t, k, |n.ops[k].ins|) {
        PathsExact(n, ys, t, k + 1, p);
        ViaExact(n, ys, t, k, |n.ops[k].ins|, p);
      }
      NoDupAppend(PathsFrom(n, ys, t, k + 1), Via(n, ys, t, k, |n.ops[k].ins|));
    }
  }

  lemma {:induction false} ViaOnce<G>(n: Net<G>, ys: seq<nat>, t: nat, k: nat, i: nat)
    requires Topological(n, ys) && k < |n.ops| && i <= |n.ops[k].ins|
    ensures NoDup(Via(n, ys, t, k, i))
    decreases |n.ops| - k, 0, i, 0
  {
    if i > 0 {
      ViaOnce(n, ys, t, k, i - 1);
      var more := Through(n, ys, k, i - 1, |n.ops[k].outs|);
      ThroughOnce(n, ys, k, i - 1, |n.ops[k].outs|);
      forall p | p in Via(n, ys, t, k, i - 1) ensures p !in more {
        ViaExact(n, ys, t, k, i - 1, p);
        ThroughExact(n, ys, k, i - 1, |n.ops[k].outs|, p);
      }
      NoDupAppend(Via(n, ys, t, k, i - 1), more);
    }
  }

  lemma {:induction false} ThroughOnce<G>(n: Net<G>, ys: seq<nat>, k: nat, i: nat, j: nat)
    requires Topological(n, ys) && k < |n.ops| && i < |n.ops[k].ins| && j <= |n.ops[k].outs|
    ensures NoDup(Through(n, ys, k, i, j))
    decreases |n.ops| - k, 0, i, j
  {
    if j > 0 {
      ThroughOnce(n, ys, k, i, j - 1);
      var ps := PathsFrom(n, ys, n.ops[k].outs[j - 1], k + 1);
      PathsOnce(n, ys, n.ops[k].outs[j - 1], k + 1);
      var more := ConsAll(Edge(k, i, j - 1), ps);
      ConsAllOnce(Edge(k, i, j - 1), ps);
      forall p | p in Through(n, ys, k, i, j - 1) ensures p !in more {
        ThroughExact(n, ys, k, i, j - 1, p);
        InConsAll(Edge(k, i, j - 1), ps, p);
      }
      NoDupAppend(Through(n, ys, k, i, j - 1), more);
    }
  }

  lemma ConsAllOnce(e: Edge, ps: seq<Path>)
    requires NoDup(ps)
    ensures NoDup(ConsAll(e, ps))
  {
    var r := ConsAll(e, ps);
    forall i, j | 0 <= i < j < |r| ensures r[i] != r[j] {
      assert r[i].edges[1..] == ps[i].edges && r[j].edges[1..] == ps[j].edges;
      assert r[i].seed == ps[i].seed && r[j].seed == ps[j].seed;
    }
  }

  /** The gradient is undefined exactly when no path leads to any of the `ys`. */
  lemma UndefinedIff<G>(n: Net<G>, ys: seq<nat>, seeds: seq<G>, t: nat)
    requires Topological(n, ys) && |seeds| == |ys|
    ensures PathSum(n, ys, seeds, t, 0).None? <==> !exists p :: IsPath(n, ys, t, p)
  {
    PathsSeeded(n, ys, t, 0);
    var ps := PathsFrom(n, ys, t, 0);
    assert PathSum(n, ys, seeds, t, 0).None? <==> ps == [];
    hide PathsFrom, IsPath, PathSum, Topological;
    if ps != [] {
      var p := ps[0];
      assert p in ps;
      PathsExact(n, ys, t, 0, p);
    }
    if p :| IsPath(n, ys, t, p) {
      PathsExact(n, ys, t, 0, p);
      assert p in ps;
    }
  }

  // ---------- regrouping: one operation at a time ----------

  lemma {:induction false} PullSum<G(!new)>(n: Net<G>, seeds: seq<G>, e: Edge, ps: seq<Path>)
    requires Linear(n) && Seeded(ps, |seeds|)
    ensures Seeded(ConsAll(e, ps), |seeds|)
    ensures Sum(n, Grads(n, seeds, ConsAll(e, ps))) ==
            var total := Sum(n, Grads(n, seeds, ps));
            if total.None? then None else Some(n.pull(e.op, e.inp, e.out, total.value))
  {
    if ps != [] {
      var m := |ps| - 1;
      PullSum(n, seeds, e, ps[..m]);
      ConsSnoc(n, seeds, e, ps);
      hide *;
      var most, last := Sum(n, Grads(n, seeds, ps[..m])), PathGrad(n, seeds, ps[m]);
      SumNext(n, Grads(n, seeds, ps[..m]), last);
      SumNext(n, Grads(n, seeds, ConsAll(e, ps[..m])), n.pull(e.op, e.inp, e.out, last));
      PullPlus(n, e, most, last);
    }
  }

  /** Pulling back along one edge is linear, also where the first gradient is undefined. */
  lemma PullPlus<G(!new)>(n: Net<G>, e: Edge, a: Option<G>, b: G)
    requires Linear(n)
    ensures Plus(n, a, Some(b)) == Some(if a.None? then b else n.plus(a.value, b))
    ensures Plus(
              n, if a.None? then None else Some(n.pull(e.op, e.inp, e.out, a.value)),
              Some(n.pull(e.op, e.inp, e.out, b)))
         == Some(n.pull(e.op, e.inp, e.out, Plus(n, a, Some(b)).value))
  {
  }

  lemma GradsSnoc<G>(n: Net<G>, seeds: seq<G>, ps: seq<Path>)
    requires ps != [] && Seeded(ps, |seeds|)
    ensures Seeded(ps[..|ps| - 1], |seeds|) && ps[|ps| - 1].seed < |seeds|
    ensures Grads(n, seeds, ps) == Grads(n, seeds, ps[..|ps| - 1]) + [PathGrad(n, seeds, ps[|ps| - 1])]
  {
    hide PathGrad;
  }

  lemma ConsSnoc<G>(n: Net<G>, seeds: seq<G>, e: Edge, ps: seq<Path>)
    requires ps != [] && Seeded(ps, |seeds|)
    ensures Seeded(ConsAll(e, ps), |seeds|) && Seeded(ps[..|ps| - 1], |seeds|)
    ensures Seeded(ConsAll(e, ps[..|ps| - 1]), |seeds|)
    ensures ps[|ps| - 1].seed < |seeds|
    ensures Grads(n, seeds, ps) == Grads(n, seeds, ps[..|ps| - 1]) + [PathGrad(n, seeds, ps[|ps| - 1])]
    ensures Grads(n, seeds, ConsAll(e, ps))
         == Grads(n, seeds, ConsAll(e, ps[..|ps| - 1])) + [n.pull(e.op, e.inp, e.out, PathGrad(n, seeds, ps[|ps| - 1]))]
  {
    var m := |ps| - 1;
    assert Seeded(ConsAll(e, ps), |seeds|);
    assert ConsAll(e, ps)[..m] == ConsAll(e, ps[..m]);
    assert ConsAll(e, ps)[m] == Cons(e, ps[m]);
    hide Grads, PathGrad, ConsAll, Cons, Seeded;
    GradsSnoc(n, seeds, ps);
    GradsSnoc(n, seeds, ConsAll(e, ps));
    ConsGrad(n, seeds, e, ps[m]);
  }

  lemma ConsGrad<G>(n: Net<G>, seeds: seq<G>, e: Edge, p: Path)
    requires p.seed < |seeds|
    ensures PathGrad(n, seeds, Cons(e, p)) == n.pull(e.op, e.inp, e.out, PathGrad(n, seeds, p))
  {
    assert Cons(e, p).edges[1..] == p.edges;
  }

  lemma GradsAppend<G(!new)>(n: Net<G>, seeds: seq<G>, a: seq<Path>, b: seq<Path>)
    requires Linear(n) && Seeded(a, |seeds|) && Seeded(b, |seeds|)
    ensures Seeded(a + b, |seeds|)
    ensures Sum(n, Grads(n, seeds, a + b)) == Plus(n, Sum(n, Grads(n, seeds, a)), Sum(n, Grads(n, seeds, b)))
  {
    assert Grads(n, seeds, a + b) == Grads(n, seeds, a) + Grads(n, seeds, b);
    SumAppend(n, Grads(n, seeds, a), Grads(n, seeds, b));
  }

  /** The contribution of one output to input `i` of operation `k`. */
  function Pulled<G>(n: Net<G>, k: nat, i: nat, j: nat, g: Option<G>): Option<G> {
    if g.None? || !n.linked(k, i, j) then None else Some(n.pull(k, i, j, g.value))
  }

  /** The operation's own gradient for input `i`, from the gradients of its first `j` outputs. */
  function InputGrad<G>(n: Net<G>, k: nat, i: nat, outs: seq<Option<G>>): Option<G> {
    if outs == [] then None else
      var j := |outs| - 1;
      Plus(n, InputGrad(n, k, i, outs[..j]), Pulled(n, k, i, j, outs[j]))
  }

  /** The gradients of the outputs of operation `k`, complete once all later operations are done. */
  ghost predicate OutputGrads<G>(n: Net<G>, ys: seq<nat>, seeds: seq<G>, k: nat, outs: seq<Option<G>>)
    requires |seeds| == |ys|
  {
    k < |n.ops| && |outs| == |n.ops[k].outs|
    && forall j | 0 <= j < |outs| :: outs[j] == PathSum(n, ys, seeds, n.ops[k].outs[j], k + 1)
  }

  lemma {:induction false} InputGradIsSum<G(!new)>(
    n: Net<G>, ys: seq<nat>, seeds: seq<G>, k: nat, i: nat, outs: seq<Option<G>>, j: nat)
    requires Linear(n) && |seeds| == |ys| && OutputGrads(n, ys, seeds, k, outs) && i < |n.ops[k].ins| && j <= |outs|
    ensures Seeded(Through(n, ys, k, i, j), |seeds|)
    ensures InputGrad(n, k, i, outs[..j]) == Sum(n, Grads(n, seeds, Through(n, ys, k, i, j)))
  {
    ThroughSeeded(n, ys, k, i, j);
    if j > 0 {
      assert outs[..j][..j - 1] == outs[..j - 1];
      InputGradIsSum(n, ys, seeds, k, i, outs, j - 1);
      var t := n.ops[k].outs[j - 1];
      PathsSeeded(n, ys, t, k + 1);
      if n.linked(k, i, j - 1) {
        PullSum(n, seeds, Edge(k, i, j - 1), PathsFrom(n, ys, t, k + 1));
        GradsAppend(n, seeds, Through(n, ys, k, i, j - 1), ConsAll(Edge(k, i, j - 1), PathsFrom(n, ys, t, k + 1)));
      } else {
        assert Through(n, ys, k, i, j) == Through(n, ys, k, i, j - 1);
      }
    }
  }

  /** What the first `i` inputs of operation `k` add to the gradient of `t`. */
  ghost function ViaSum<G>(n: Net<G>, ys: seq<nat>, seeds: seq<G>, t: nat, k: nat, i: nat): Option<G>
    requires k < |n.ops| && i <= |n.ops[k].ins| && |seeds| == |ys|
  {
    ViaSeeded(n, ys, t, k, i);
    Sum(n, Grads(n, seeds, Via(n, ys, t, k, i)))
  }

  lemma ViaNext<G(!new)>(n: Net<G>, ys: seq<nat>, seeds: seq<G>, t: nat, k: nat, i: nat, outs: seq<Option<G>>)
    requires Linear(n) && |seeds| == |ys| && OutputGrads(n, ys, seeds, k, outs) && i < |n.ops[k].ins|
    ensures ViaSum(n, ys, seeds, t, k, i + 1)
         == if n.ops[k].ins[i] == t then Plus(n, ViaSum(n, ys, seeds, t, k, i), InputGrad(n, k, i, outs))
            else ViaSum(n, ys, seeds, t, k, i)
  {
    ViaSeeded(n, ys, t, k, i);
    ThroughSeeded(n, ys, k, i, |n.ops[k].outs|);
    if n.ops[k].ins[i] == t {
      InputGradIsSum(n, ys, seeds, k, i, outs, |outs|);
      assert outs[..|outs|] == outs;
      GradsAppend(n, seeds, Via(n, ys, t, k, i), Through(n, ys, k, i, |n.ops[k].outs|));
    } else {
      assert Via(n, ys, t, k, i + 1) == Via(n, ys, t, k, i);
    }
  }

  lemma PathSumNext<G(!new)>(n: Net<G>, ys: seq<nat>, seeds: seq<G>, t: nat, k: nat)
    requires Linear(n) && |seeds| == |ys| && k < |n.ops|
    ensures PathSum(n, ys, seeds, t, k)
         == Plus(n, PathSum(n, ys, seeds, t, k + 1), ViaSum(n, ys, seeds, t, k, |n.ops[k].ins|))
    ensures ViaSum(n, ys, seeds, t, k, 0) == None
  {
    PathsSeeded(n, ys, t, k + 1);
    ViaSeeded(n, ys, t, k, |n.ops[k].ins|);
    GradsAppend(n, seeds, PathsFrom(n, ys, t, k + 1), Via(n, ys, t, k, |n.ops[k].ins|));
  }

  /** The gradient of what operation `l` makes is complete once the operations after it are done. */
  lemma {:induction false} CompleteAfter<G(!new)>(n: Net<G>, ys: seq<nat>, seeds: seq<G>, l: nat, j: nat, k: nat)
    requires Linear(n) && Topological(n, ys) && |seeds| == |ys| && l < |n.ops| && j < |n.ops[l].outs| && k <= l + 1
    ensures PathSum(n, ys, seeds, n.ops[l].outs[j], k) == PathSum(n, ys, seeds, n.ops[l].outs[j], l + 1)
    decreases l + 1 - k
  {
    hide Linear, Topological, PathsFrom, PathSum, ViaSum, Via, Made;
    if k <= l {
      CompleteAfter(n, ys, seeds, l, j, k + 1);
      PathSumNext(n, ys, seeds, n.ops[l].outs[j], k);
      UnusedBefore(n, ys, seeds, l, j, k, |n.ops[k].ins|);
    }
  }

  lemma {:induction false} UnusedBefore<G>(n: Net<G>, ys: seq<nat>, seeds: seq<G>, l: nat, j: nat, k: nat, i: nat)
    requires Topological(n, ys) && |seeds| == |ys| && l < |n.ops| && j < |n.ops[l].outs| && k <= l
    requires i <= |n.ops[k].ins|
    ensures Via(n, ys, n.ops[l].outs[j], k, i) == []
    ensures ViaSum(n, ys, seeds, n.ops[l].outs[j], k, i) == None
  {
    hide *;
    if i > 0 {
      UnusedBefore(n, ys, seeds, l, j, k, i - 1);
      if n.ops[k].ins[i - 1] == n.ops[l].outs[j] {
        UsersComeLater(n, ys, l, j, k, i - 1);
      }
      ViaSkips(n, ys, n.ops[l].outs[j], k, i);
    } else {
      ViaNone(n, ys, n.ops[l].outs[j], k);
    }
    NoViaNoSum(n, ys, seeds, n.ops[l].outs[j], k, i);
  }

  lemma ViaNone<G>(n: Net<G>, ys: seq<nat>, t: nat, k: nat)
    requires k < |n.ops|
    ensures Via(n, ys, t, k, 0) == []
  {
  }

  lemma ViaSkips<G>(n: Net<G>, ys: seq<nat>, t: nat, k: nat, i: nat)
    requires k < |n.ops| && 0 < i <= |n.ops[k].ins| && n.ops[k].ins[i - 1] != t
    ensures Via(n, ys, t, k, i) == Via(n, ys, t, k, i - 1)
  {
  }

  lemma NoViaNoSum<G>(n: Net<G>, ys: seq<nat>, seeds: seq<G>, t: nat, k: nat, i: nat)
    requires k < |n.ops| && i <= |n.ops[k].ins| && |seeds| == |ys| && Via(n, ys, t, k, i) == []
    ensures ViaSum(n, ys, seeds, t, k, i) == None
  {
  }

  /** A tensor no operation of the order makes has no path at all. */
  lemma NotMadeNoPath<G>(n: Net<G>, ys: seq<nat>, seeds: seq<G>, t: nat)
    requires Topological(n, ys) && |seeds| == |ys| && t !in Made(n.ops, |n.ops|)
    ensures PathSum(n, ys, seeds, t, 0) == None
  {
    forall p ensures !IsPath(n, ys, t, p) {
      if IsPath(n, ys, t, p) && p.edges != [] {
        var e := p.edges[0];
        MadeGrows(n.ops, e.op, |n.ops|, t);
      }
    }
    UndefinedIff(n, ys, seeds, t);
  }

  // ---------- the walk itself ----------

  /** The sum of a list of possibly undefined gradients. */
  function SumDefined<G>(n: Net<G>, gs: seq<Option<G>>): Option<G> {
    if gs == [] then None else Plus(n, SumDefined(n, gs[..|gs| - 1]), gs[|gs| - 1])
  }

  /** Drops what is undefined, passes a single gradient on, adds up several. */
  method ReduceGrad<G>(n: Net<G>, unreduced: seq<Option<G>>) returns (grad: Option<G>)
    ensures grad == SumDefined(n, unreduced)
  {
    var filtered: seq<G> := [];
    for i := 0 to |unreduced|
      invariant Sum(n, filtered) == SumDefined(n, unreduced[..i])
    {
      assert unreduced[..i + 1][..i] == unreduced[..i];
      if unreduced[i].Some? {
        assert (filtered + [unreduced[i].value])[..|filtered|] == filtered;
        filtered := filtered + [unreduced[i].value];
      }
    }
    assert unreduced[..|unreduced|] == unreduced;
    if |filtered| == 0 {
      return None;
    } else if |filtered| == 1 {
      assert filtered[..0] == [];
      return Some(filtered[0]);
    }
    var sum := filtered[0];
    assert filtered[..1][..0] == [];
    for i := 1 to |filtered|
      invariant Some(sum) == Sum(n, filtered[..i])
    {
      assert filtered[..i + 1][..i] == filtered[..i];
      sum := n.plus(sum, filtered[i]);
    }
    assert filtered[..|filtered|] == filtered;
    return Some(sum);
  }

  /** The gradient operation of operation `k`, one result per input. */
  method MakeGradients<G>(n: Net<G>, k: nat, outs: seq<Option<G>>) returns (ins: seq<Option<G>>)
    requires k < |n.ops|
    ensures |ins| == |n.ops[k].ins| && forall i | 0 <= i < |ins| :: ins[i] == InputGrad(n, k, i, outs)
  {
    ins := seq(|n.ops[k].ins|, i requires 0 <= i < |n.ops[k].ins| => InputGrad(n, k, i, outs));
  }

  type GradLists<G> = map<nat, seq<Option<G>>>

  function ListOf<G>(grads: GradLists<G>, t: nat): seq<Option<G>> {
    if t in grads then grads[t] else []
  }

  function Appended<G>(grads: GradLists<G>, t: nat, g: Option<G>): GradLists<G> {
    grads[t := ListOf(grads, t) + [g]]
  }

  /** The filled seeds: ones where the caller gave none. */
  function Seeds<G>(n: Net<G>, ys: seq<nat>, gradYs: seq<Option<G>>): (r: seq<G>)
    requires gradYs == [] || |gradYs| == |ys|
    ensures |r| == |ys|
  {
    seq(|ys|, s requires 0 <= s < |ys| =>
      if gradYs == [] || gradYs[s].None? then n.onesLike(ys[s]) else gradYs[s].value)
  }

  /** The caller's gradient where there is one, ones where the list is empty or the entry undefined. */
  ghost predicate AreSeeds<G>(n: Net<G>, ys: seq<nat>, gradYs: seq<Option<G>>, seeds: seq<G>) {
    && |seeds| == |ys| && (gradYs == [] || |gradYs| == |ys|)
    && (forall s | 0 <= s < |ys| && gradYs != [] && gradYs[s].Some? :: seeds[s] == gradYs[s].value)
    && (forall s | 0 <= s < |ys| && (gradYs == [] || gradYs[s].None?) :: seeds[s] == n.onesLike(ys[s]))
  }

  lemma SeedsAreThose<G(!new)>(n: Net<G>, ys: seq<nat>, gradYs: seq<Option<G>>)
    requires gradYs == [] || |gradYs| == |ys|
    ensures AreSeeds(n, ys, gradYs, Seeds(n, ys, gradYs))
    ensures forall seeds: seq<G> | AreSeeds(n, ys, gradYs, seeds) :: seeds == Seeds(n, ys, gradYs)
  {
  }

  lemma AnswersAnySeeds<G(!new)>(
    n: Net<G>, ys: seq<nat>, xs: seq<nat>, gradYs: seq<Option<G>>, used: seq<G>, ret: seq<Option<G>>)
    requires (gradYs == [] || |gradYs| == |ys|) && used == Seeds(n, ys, gradYs) && |ret| == |xs|
    requires forall i | 0 <= i < |xs| :: ret[i] == PathSum(n, ys, used, xs[i], 0)
    ensures AreSeeds(n, ys, gradYs, used)
    ensures forall seeds: seq<G> | AreSeeds(n, ys, gradYs, seeds) ::
              forall i | 0 <= i < |xs| :: ret[i] == PathSum(n, ys, seeds, xs[i], 0)
  {
    SeedsAreThose(n, ys, gradYs);
    hide PathSum, AreSeeds, Seeds;
  }

  /** All lists sum to what the operations from `k` on contribute. */
  ghost predicate ListsHold<G>(n: Net<G>, ys: seq<nat>, seeds: seq<G>, grads: GradLists<G>, k: nat)
    requires k <= |n.ops| && |seeds| == |ys|
  {
    forall t: nat :: SumDefined(n, ListOf(grads, t)) == PathSum(n, ys, seeds, t, k)
  }

  ghost predicate ListsMid<G>(n: Net<G>, ys: seq<nat>, seeds: seq<G>, grads: GradLists<G>, k: nat, i: nat)
    requires k < |n.ops| && i <= |n.ops[k].ins| && |seeds| == |ys|
  {
    forall t: nat ::
      SumDefined(n, ListOf(grads, t)) == Plus(n, PathSum(n, ys, seeds, t, k + 1), ViaSum(n, ys, seeds, t, k, i))
  }

  lemma ListsAppend<G(!new)>(
    n: Net<G>, ys: seq<nat>, seeds: seq<G>, grads: GradLists<G>, k: nat, i: nat, outs: seq<Option<G>>)
    requires Linear(n) && |seeds| == |ys| && OutputGrads(n, ys, seeds, k, outs) && i < |n.ops[k].ins|
    requires ListsMid(n, ys, seeds, grads, k, i)
    ensures ListsMid(n, ys, seeds, Appended(grads, n.ops[k].ins[i], InputGrad(n, k, i, outs)), k, i + 1)
    ensures InputGrad(n, k, i, outs).None? ==> ListsMid(n, ys, seeds, grads, k, i + 1)
  {
    var u, g := n.ops[k].ins[i], InputGrad(n, k, i, outs);
    var next := Appended(grads, u, g);
    forall t: nat
      ensures SumDefined(n, ListOf(next, t))
           == Plus(n, PathSum(n, ys, seeds, t, k + 1), ViaSum(n, ys, seeds, t, k, i + 1))
      ensures g.None? ==>
                SumDefined(n, ListOf(grads, t))
                == Plus(n, PathSum(n, ys, seeds, t, k + 1), ViaSum(n, ys, seeds, t, k, i + 1))
    {
      ViaNext(n, ys, seeds, t, k, i, outs);
      assert (ListOf(grads, t) + [g])[..|ListOf(grads, t)|] == ListOf(grads, t);
      PlusAssoc(n, PathSum(n, ys, seeds, t, k + 1), ViaSum(n, ys, seeds, t, k, i), g);
      hide Linear, ViaSum, PathSum, InputGrad, OutputGrads;
    }
  }

  lemma ListsFromMid<G(!new)>(n: Net<G>, ys: seq<nat>, seeds: seq<G>, grads: GradLists<G>, k: nat)
    requires Linear(n) && |seeds| == |ys| && k < |n.ops|
    ensures ListsHold(n, ys, seeds, grads, k + 1) ==> ListsMid(n, ys, seeds, grads, k, 0)
    ensures ListsMid(n, ys, seeds, grads, k, |n.ops[k].ins|) ==> ListsHold(n, ys, seeds, grads, k)
  {
    forall t: nat
      ensures PathSum(n, ys, seeds, t, k)
           == Plus(n, PathSum(n, ys, seeds, t, k + 1), ViaSum(n, ys, seeds, t, k, |n.ops[k].ins|))
      ensures ViaSum(n, ys, seeds, t, k, 0) == None
    {
      PathSumNext(n, ys, seeds, t, k);
    }
    hide PathSum, ViaSum;
  }

  /** Starts every list with the seeds of the `ys`. */
  method SeedLists<G(!new)>(n: Net<G>, ys: seq<nat>, seeds: seq<G>) returns (grads: GradLists<G>)
    requires |seeds| == |ys|
    ensures ListsHold(n, ys, seeds, grads, |n.ops|)
  {
    grads := map[];
    NoSeeds(n, ys, seeds);
    for s := 0 to |ys|
      invariant forall t: nat :: SeedsHold(n, ys, seeds, grads, t, s)
    {
      hide SeedsHold, Appended;
      ghost var was := grads;
      grads := Appended(grads, ys[s], Some(seeds[s]));
      ghost var done := s + 1;
      forall t: nat ensures SeedsHold(n, ys, seeds, grads, t, done) {
        assert SeedsHold(n, ys, seeds, was, t, s);
        SeedNext(n, ys, seeds, was, t, s);
      }
    }
    SeedsAreLists(n, ys, seeds, grads);
  }

  lemma NoSeeds<G(!new)>(n: Net<G>, ys: seq<nat>, seeds: seq<G>)
    requires |seeds| == |ys|
    ensures forall t: nat :: SeedsHold(n, ys, seeds, map[], t, 0)
  {
  }

  lemma SeedsAreLists<G(!new)>(n: Net<G>, ys: seq<nat>, seeds: seq<G>, grads: GradLists<G>)
    requires |seeds| == |ys| && forall t: nat :: SeedsHold(n, ys, seeds, grads, t, |ys|)
    ensures ListsHold(n, ys, seeds, grads, |n.ops|)
  {
    forall t: nat ensures SumDefined(n, ListOf(grads, t)) == PathSum(n, ys, seeds, t, |n.ops|) {
      assert SeedsHold(n, ys, seeds, grads, t, |ys|);
    }
  }

  ghost predicate SeedsHold<G>(n: Net<G>, ys: seq<nat>, seeds: seq<G>, grads: GradLists<G>, t: nat, s: nat)
    requires |seeds| == |ys| && s <= |ys|
  {
    SeedPathsSeeded(ys, t, s);
    SumDefined(n, ListOf(grads, t)) == Sum(n, Grads(n, seeds, SeedPaths(ys, t, s)))
  }

  lemma SeedNext<G>(n: Net<G>, ys: seq<nat>, seeds: seq<G>, grads: GradLists<G>, t: nat, s: nat)
    requires |seeds| == |ys| && s < |ys| && SeedsHold(n, ys, seeds, grads, t, s)
    ensures SeedsHold(n, ys, seeds, Appended(grads, ys[s], Some(seeds[s])), t, s + 1)
  {
    hide SumDefined, Sum, ListOf, Grads, SeedPaths;
    SeedPathsSeeded(ys, t, s);
    SeedPathsSeeded(ys, t, s + 1);
    SeedGrads(n, ys, seeds, t, s);
    AppendedAt(grads, ys[s], Some(seeds[s]), t);
    if ys[s] == t {
      ListNext(n, ListOf(grads, t), seeds[s]);
      SumNext(n, Grads(n, seeds, SeedPaths(ys, t, s)), seeds[s]);
    }
  }

  lemma SeedGrads<G>(n: Net<G>, ys: seq<nat>, seeds: seq<G>, t: nat, s: nat)
    requires |seeds| == |ys| && s < |ys|
    requires Seeded(SeedPaths(ys, t, s), |seeds|) && Seeded(SeedPaths(ys, t, s + 1), |seeds|)
    ensures Grads(n, seeds, SeedPaths(ys, t, s + 1))
         == if ys[s] == t then Grads(n, seeds, SeedPaths(ys, t, s)) + [seeds[s]]
            else Grads(n, seeds, SeedPaths(ys, t, s))
  {
  }

  lemma AppendedAt<G>(grads: GradLists<G>, u: nat, g: Option<G>, t: nat)
    ensures ListOf(Appended(grads, u, g), t) == if t == u then ListOf(grads, t) + [g] else ListOf(grads, t)
  {
  }

  lemma ListNext<G>(n: Net<G>, list: seq<Option<G>>, g: G)
    ensures SumDefined(n, list + [Some(g)]) == Plus(n, SumDefined(n, list), Some(g))
  {
    assert (list + [Some(g)])[..|list|] == list;
  }

  lemma SumNext<G>(n: Net<G>, gs: seq<G>, g: G)
    ensures Sum(n, gs + [g]) == Plus(n, Sum(n, gs), Some(g))
  {
    assert (gs + [g])[..|gs|] == gs;
  }

  /** The reduced gradients recorded for the operations from `k` on. */
  ghost predicate Recorded<G>(n: Net<G>, ys: seq<nat>, seeds: seq<G>, reduced: map<nat, Option<G>>, k: nat)
    requires |seeds| == |ys|
  {
    && (forall l, j | k <= l < |n.ops| && 0 <= j < |n.ops[l].outs| :: n.ops[l].outs[j] in reduced)
    && (forall t <- reduced :: reduced[t] == PathSum(n, ys, seeds, t, 0) && t in Made(n.ops, |n.ops|))
  }

  /** Reduces and records the gradients of the outputs of operation `k`. */
  method ReduceOutputs<G(!new)>(n: Net<G>, ghost ys: seq<nat>, ghost seeds: seq<G>, k: nat, grads: GradLists<G>,
                                reduced: map<nat, Option<G>>)
    returns (outs: seq<Option<G>>, next: map<nat, Option<G>>)
    requires Linear(n) && Topological(n, ys) && |seeds| == |ys| && k < |n.ops|
    requires ListsHold(n, ys, seeds, grads, k + 1) && Recorded(n, ys, seeds, reduced, k + 1)
    ensures OutputGrads(n, ys, seeds, k, outs) && Recorded(n, ys, seeds, next, k)
  {
    hide Linear, Topological, PathSum, Made;
    outs, next := [], reduced;
    for j := 0 to |n.ops[k].outs|
      invariant |outs| == j && forall i | 0 <= i < j :: outs[i] == PathSum(n, ys, seeds, n.ops[k].outs[i], k + 1)
      invariant Recorded(n, ys, seeds, next, k + 1) && forall i | 0 <= i < j :: n.ops[k].outs[i] in next
    {
      var t := n.ops[k].outs[j];
      var grad := ReduceGrad(n, ListOf(grads, t));
      assert grad == PathSum(n, ys, seeds, t, k + 1);
      CompleteAfter(n, ys, seeds, k, j, 0);
      OutputIsMade(n.ops, k, t);
      next := next[t := grad];
      outs := outs + [grad];
    }
  }

  /** One step of the walk: the gradients of the outputs of operation `k`, then those of its inputs. */
  method WalkOne<G(!new)>(
    n: Net<G>, ghost ys: seq<nat>, ghost seeds: seq<G>, k: nat, grads: GradLists<G>,
    reduced: map<nat, Option<G>>)
    returns (nextGrads: GradLists<G>, nextReduced: map<nat, Option<G>>)
    requires Linear(n) && Topological(n, ys) && |seeds| == |ys| && k < |n.ops|
    requires ListsHold(n, ys, seeds, grads, k + 1) && Recorded(n, ys, seeds, reduced, k + 1)
    ensures ListsHold(n, ys, seeds, nextGrads, k) && Recorded(n, ys, seeds, nextReduced, k)
  {
    hide Linear, Topological, PathSum, ListsHold, ListsMid, OutputGrads, InputGrad, Recorded;
    var outs;
    outs, nextReduced := ReduceOutputs(n, ys, seeds, k, grads, reduced);
    var ins := MakeGradients(n, k, outs);
    nextGrads := grads;
    ListsFromMid(n, ys, seeds, grads, k);
    for i := 0 to |ins|
      invariant ListsMid(n, ys, seeds, nextGrads, k, i)
    {
      ListsAppend(n, ys, seeds, nextGrads, k, i, outs);
      if ins[i].Some? {
        nextGrads := Appended(nextGrads, n.ops[k].ins[i], ins[i]);
      }
    }
    ListsFromMid(n, ys, seeds, nextGrads, k);
  }

  /** Looks the asked tensors up among the recorded gradients. */
  method Answer<G(!new)>(n: Net<G>, ghost ys: seq<nat>, ghost seeds: seq<G>, xs: seq<nat>, reduced: map<nat, Option<G>>)
    returns (ret: seq<Option<G>>)
    requires Linear(n) && Topological(n, ys) && |seeds| == |ys| && Recorded(n, ys, seeds, reduced, 0)
    ensures |ret| == |xs| && forall i | 0 <= i < |xs| :: ret[i] == PathSum(n, ys, seeds, xs[i], 0)
  {
    hide Linear, Topological, PathSum, Made;
    ret := [];
    for i := 0 to |xs|
      invariant |ret| == i && forall j | 0 <= j < i :: ret[j] == PathSum(n, ys, seeds, xs[j], 0)
    {
      if xs[i] in reduced {
        ret := ret + [reduced[xs[i]]];
      } else {
        NotRecorded(n, ys, seeds, reduced, xs[i]);
        ret := ret + [None];
      }
    }
  }

  /**
   Reverse accumulation is the chain rule: for each asked tensor the walk returns the sum, over
   all paths to the `ys`, of the seeds pulled back along the path; undefined without a path. An
   error only when the number of seeds does not match.
   */
  method Gradients<G(!new)>(
    n: Net<G>, ys: seq<nat>, xs: seq<nat>, gradYs: seq<Option<G>>) returns (ok: bool, ret: seq<Option<G>>)
    requires Linear(n) && Topological(n, ys)
    ensures ok <==> gradYs == [] || |gradYs| == |ys|
    ensures ok ==> |ret| == |xs|
    ensures ok ==> forall seeds: seq<G> | AreSeeds(n, ys, gradYs, seeds) ::
              forall i | 0 <= i < |xs| :: ret[i] == PathSum(n, ys, seeds, xs[i], 0)
    ensures ok ==> exists seeds: seq<G> :: AreSeeds(n, ys, gradYs, seeds)
  {
    if gradYs != [] && |gradYs| != |ys| {
      return false, [];
    }
    var seeds := Seeds(n, ys, gradYs);
    var grads := SeedLists(n, ys, seeds);
    var reduced: map<nat, Option<G>> := map[];
    assert Recorded(n, ys, seeds, reduced, |n.ops|);
    hide *;
    var k := |n.ops|;
    while k > 0
      invariant 0 <= k <= |n.ops|
      invariant ListsHold(n, ys, seeds, grads, k) && Recorded(n, ys, seeds, reduced, k)
    {
      k := k - 1;
      grads, reduced := WalkOne(n, ys, seeds, k, grads, reduced);
    }
    ret := Answer(n, ys, seeds, xs, reduced);
    ok := true;
    AnswersAnySeeds(n, ys, xs, gradYs, seeds, ret);
  }

  lemma NotRecorded<G>(n: Net<G>, ys: seq<nat>, seeds: seq<G>, reduced: map<nat, Option<G>>, t: nat)
    requires Topological(n, ys) && |seeds| == |ys| && Recorded(n, ys, seeds, reduced, 0) && t !in reduced
    ensures PathSum(n, ys, seeds, t, 0) == None
  {
    if t in Made(n.ops, |n.ops|) {
      var l, j := MakerOf(n.ops, |n.ops|, t);
    }
    NotMadeNoPath(n, ys, seeds, t);
  }

  lemma {:induction false} MakerOf(ops: seq<GraphOp>, k: nat, t: nat) returns (l: nat, j: nat)
    requires k <= |ops| && t in Made(ops, k)
    ensures l < k && j < |ops[l].outs| && ops[l].outs[j] == t
  {
    if t in ops[k - 1].outs {
      l, j := k - 1, IndexOf(ops[k - 1].outs, t);
    } else {
      l, j := MakerOf(ops, k - 1, t);
    }
  }

  // ---------- the chain rule at single tensors ----------

  /** A `y` that is listed once and that no operation reads has exactly the gradient given for it. */
  lemma UnreadSeed<G(!new)>(n: Net<G>, ys: seq<nat>, seeds: seq<G>, s: nat)
    requires Linear(n) && |seeds| == |ys| && s < |ys| && NoDup(ys)
    requires forall k, i | 0 <= k < |n.ops| && 0 <= i < |n.ops[k].ins| :: n.ops[k].ins[i] != ys[s]
    ensures PathSum(n, ys, seeds, ys[s], 0) == Some(seeds[s])
  {
    hide *;
    NobodyReads(n, ys, seeds, ys[s], 0, |n.ops|);
    ListedOnce(n, ys, seeds, s);
  }

  /** The operations from `k` up to `m` add nothing if they do not read the tensor. */
  lemma {:induction false} NobodyReads<G(!new)>(n: Net<G>, ys: seq<nat>, seeds: seq<G>, t: nat, k: nat, m: nat)
    requires Linear(n) && |seeds| == |ys| && k <= m <= |n.ops|
    requires forall l, i | k <= l < m && 0 <= i < |n.ops[l].ins| :: n.ops[l].ins[i] != t
    ensures PathSum(n, ys, seeds, t, k) == PathSum(n, ys, seeds, t, m)
    decreases m - k
  {
    hide *;
    if k < m {
      NobodyReads(n, ys, seeds, t, k + 1, m);
      PathSumNext(n, ys, seeds, t, k);
      NotAnInput(n, ys, t, k, |n.ops[k].ins|);
      NoViaNoSum(n, ys, seeds, t, k, |n.ops[k].ins|);
      NonePlus(n, PathSum(n, ys, seeds, t, k + 1));
    }
  }

  lemma {:induction false} NotAnInput<G>(n: Net<G>, ys: seq<nat>, t: nat, k: nat, i: nat)
    requires k < |n.ops| && i <= |n.ops[k].ins| && forall j | 0 <= j < i :: n.ops[k].ins[j] != t
    ensures Via(n, ys, t, k, i) == []
  {
    hide Via;
    if i > 0 {
      NotAnInput(n, ys, t, k, i - 1);
      ViaSkips(n, ys, t, k, i);
    } else {
      ViaNone(n, ys, t, k);
    }
  }

  lemma ListedOnce<G(!new)>(n: Net<G>, ys: seq<nat>, seeds: seq<G>, s: nat)
    requires |seeds| == |ys| && s < |ys| && NoDup(ys)
    ensures PathSum(n, ys, seeds, ys[s], |n.ops|) == Some(seeds[s])
  {
    OneSeedPath(ys, s, |ys|);
    assert Grads(n, seeds, [Path([], s)]) == [seeds[s]];
    assert [seeds[s]][..0] == [];
  }

  lemma SeedPathsLast(ys: seq<nat>, t: nat, m: nat)
    requires 0 < m <= |ys|
    ensures SeedPaths(ys, t, m) == SeedPaths(ys, t, m - 1) + if ys[m - 1] == t then [Path([], m - 1)] else []
  {
  }

  lemma {:induction false} OneSeedPath(ys: seq<nat>, s: nat, m: nat)
    requires s < |ys| && m <= |ys| && NoDup(ys)
    ensures SeedPaths(ys, ys[s], m) == if s < m then [Path([], s)] else []
  {
    if m > 0 {
      SeedPathsLast(ys, ys[s], m);
      hide SeedPaths;
      OneSeedPath(ys, s, m - 1);
      assert m - 1 != s ==> ys[m - 1] != ys[s];
    }
  }

  /**
   The chain rule at a tensor that is no `y` and is read once, as input `i` of operation `k`, which passes
   a gradient back from its output `j` alone: the gradient of that output, pulled back.
   */
  lemma ChainRule<G(!new)>(n: Net<G>, ys: seq<nat>, seeds: seq<G>, k: nat, i: nat, j: nat)
    requires Linear(n) && Topological(n, ys) && |seeds| == |ys|
    requires k < |n.ops| && i < |n.ops[k].ins| && j < |n.ops[k].outs|
    requires n.ops[k].ins[i] !in ys
    requires forall l, h | 0 <= l < |n.ops| && 0 <= h < |n.ops[l].ins| && (l != k || h != i) ::
               n.ops[l].ins[h] != n.ops[k].ins[i]
    requires forall h | 0 <= h < |n.ops[k].outs| :: n.linked(k, i, h) <==> h == j
    ensures var g := PathSum(n, ys, seeds, n.ops[k].outs[j], 0);
            PathSum(n, ys, seeds, n.ops[k].ins[i], 0)
            == if g.None? then None else Some(n.pull(k, i, j, g.value))
  {
    hide *;
    ReadElsewhere(n, ys, seeds, k, i);
    ReadHere(n, ys, seeds, k, i, j);
    CompleteAfter(n, ys, seeds, k, j, 0);
  }

  /** A tensor that is no `y`: operations that do not read it add nothing. */
  lemma ReadElsewhere<G(!new)>(n: Net<G>, ys: seq<nat>, seeds: seq<G>, k: nat, i: nat)
    requires Linear(n) && |seeds| == |ys| && k < |n.ops| && i < |n.ops[k].ins| && n.ops[k].ins[i] !in ys
    requires forall l, h | 0 <= l < |n.ops| && 0 <= h < |n.ops[l].ins| && (l != k || h != i) ::
               n.ops[l].ins[h] != n.ops[k].ins[i]
    ensures PathSum(n, ys, seeds, n.ops[k].ins[i], 0) == PathSum(n, ys, seeds, n.ops[k].ins[i], k)
    ensures PathSum(n, ys, seeds, n.ops[k].ins[i], k + 1) == None
    ensures forall h | 0 <= h < |n.ops[k].ins| && h != i :: n.ops[k].ins[h] != n.ops[k].ins[i]
  {
    hide *;
    NobodyReads(n, ys, seeds, n.ops[k].ins[i], 0, k);
    NobodyReads(n, ys, seeds, n.ops[k].ins[i], k + 1, |n.ops|);
    NotSeeded(n, ys, seeds, n.ops[k].ins[i]);
  }

  lemma ReadHere<G(!new)>(n: Net<G>, ys: seq<nat>, seeds: seq<G>, k: nat, i: nat, j: nat)
    requires Linear(n) && |seeds| == |ys|
    requires k < |n.ops| && i < |n.ops[k].ins| && j < |n.ops[k].outs|
    requires PathSum(n, ys, seeds, n.ops[k].ins[i], k + 1) == None
    requires forall h | 0 <= h < |n.ops[k].ins| && h != i :: n.ops[k].ins[h] != n.ops[k].ins[i]
    requires forall h | 0 <= h < |n.ops[k].outs| :: n.linked(k, i, h) <==> h == j
    ensures var g := PathSum(n, ys, seeds, n.ops[k].outs[j], k + 1);
            PathSum(n, ys, seeds, n.ops[k].ins[i], k) == if g.None? then None else Some(n.pull(k, i, j, g.value))
  {
    hide *;
    var t := n.ops[k].ins[i];
    PathSumNext(n, ys, seeds, t, k);
    NonePlus(n, ViaSum(n, ys, seeds, t, k, |n.ops[k].ins|));
    var outs := OutsAfter(n, ys, seeds, k);
    OutsAt(n, ys, seeds, k, outs, j);
    ReadOnce(n, ys, seeds, k, i, outs, |n.ops[k].ins|);
    OneLinked(n, k, i, j, outs, |outs|);
    WholeList(outs);
  }

  lemma NonePlus<G>(n: Net<G>, a: Option<G>)
    ensures Plus(n, None, a) == a && Plus(n, a, None) == a
  {
  }

  lemma WholeList<T>(s: seq<T>)
    ensures s[..|s|] == s
  {
  }

  lemma OutsAt<G>(n: Net<G>, ys: seq<nat>, seeds: seq<G>, k: nat, outs: seq<Option<G>>, j: nat)
    requires |seeds| == |ys| && OutputGrads(n, ys, seeds, k, outs) && k < |n.ops| && j < |n.ops[k].outs|
    ensures |outs| == |n.ops[k].outs| && outs[j] == PathSum(n, ys, seeds, n.ops[k].outs[j], k + 1)
  {
    hide PathSum;
  }

  ghost function OutsAfter<G>(n: Net<G>, ys: seq<nat>, seeds: seq<G>, k: nat): (outs: seq<Option<G>>)
    requires |seeds| == |ys| && k < |n.ops|
    ensures OutputGrads(n, ys, seeds, k, outs)
  {
    seq(|n.ops[k].outs|, h requires 0 <= h < |n.ops[k].outs| => PathSum(n, ys, seeds, n.ops[k].outs[h], k + 1))
  }

  lemma NotSeeded<G>(n: Net<G>, ys: seq<nat>, seeds: seq<G>, t: nat)
    requires |seeds| == |ys| && t !in ys
    ensures PathSum(n, ys, seeds, t, |n.ops|) == None
  {
    NoSeedPath(ys, t, |ys|);
  }

  lemma {:induction false} NoSeedPath(ys: seq<nat>, t: nat, m: nat)
    requires m <= |ys| && t !in ys
    ensures SeedPaths(ys, t, m) == []
  {
    if m > 0 { NoSeedPath(ys, t, m - 1); }
  }

  /** What the first `m` inputs of operation `k` add to its input `i`, which it reads once. */
  lemma {:induction false} ReadOnce<G(!new)>(
    n: Net<G>, ys: seq<nat>, seeds: seq<G>, k: nat, i: nat, outs: seq<Option<G>>, m: nat)
    requires Linear(n) && |seeds| == |ys| && OutputGrads(n, ys, seeds, k, outs)
    requires k < |n.ops| && i < |n.ops[k].ins| && m <= |n.ops[k].ins|
    requires forall h | 0 <= h < |n.ops[k].ins| && h != i :: n.ops[k].ins[h] != n.ops[k].ins[i]
    ensures ViaSum(n, ys, seeds, n.ops[k].ins[i], k, m) == if i < m then InputGrad(n, k, i, outs) else None
  {
    hide Linear, ViaSum, InputGrad, OutputGrads;
    if m > 0 {
      ReadOnce(n, ys, seeds, k, i, outs, m - 1);
      ViaNext(n, ys, seeds, n.ops[k].ins[i], k, m - 1, outs);
    } else {
      PathSumNext(n, ys, seeds, n.ops[k].ins[i], k);
    }
  }

  lemma {:induction false} OneLinked<G>(n: Net<G>, k: nat, i: nat, j: nat, outs: seq<Option<G>>, m: nat)
    requires m <= |outs| && j < |outs| && forall h | 0 <= h < |outs| :: n.linked(k, i, h) <==> h == j
    ensures InputGrad(n, k, i, outs[..m])
         == if j < m && outs[j].Some? then Some(n.pull(k, i, j, outs[j].value)) else None
  {
    if m > 0 {
      assert outs[..m][..m - 1] == outs[..m - 1];
      OneLinked(n, k, i, j, outs, m - 1);
    }
  }
}
