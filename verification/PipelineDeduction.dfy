/**
 Deducing the pipelines of a strategy from the placement of the parameters.

 Every parameter says which devices hold the same part of it: the duplicates of a homogeneous layout,
 or the groups of a heterogeneous one. The devices are recorded under the pipeline of their duplicate
 coordinate, and every parameter adds one stage to each pipeline unless it repeats the last one. The
 invariant is that the stages of all pipelines partition the recorded devices.
 */
module PipelineDeduction {
  import opened Collections
  import opened MixedRadix
  import opened DeviceMesh
  import opened SubMesh
  import opened DeviceGroupUnions
  import opened DistributedStatesObjects

  /** The placement of one parameter: device groups and layouts, one each per union member. */
  datatype ParamOp<D> = ParamOp(groups: seq<seq<D>>, layouts: seq<DistributedStates>, heteroDim: int, isParam: bool)

  // ---------- recording devices ----------

  /** The devices that the assignments `ps` send to pipeline `i`, in order. */
  function StageFrom<D>(ps: seq<(D, int)>, i: int): seq<D> {
    if ps == [] then [] else
      var p := ps[|ps| - 1];
      StageFrom(ps[..|ps| - 1], i) + (if p.1 == i then [p.0] else [])
  }

  lemma {:induction false} StageMembers<D>(ps: seq<(D, int)>, i: int)
    ensures forall d :: d in StageFrom(ps, i) <==> exists k :: 0 <= k < |ps| && ps[k] == (d, i)
  {
    if ps != [] {
      var n := |ps| - 1;
      StageMembers(ps[..n], i);
      forall d ensures d in StageFrom(ps, i) <==> exists k :: 0 <= k < |ps| && ps[k] == (d, i) {
        if d in StageFrom(ps[..n], i) {
          var k :| 0 <= k < n && ps[..n][k] == (d, i);
          assert ps[k] == (d, i);
        }
        if k :| 0 <= k < |ps| && ps[k] == (d, i) {
          if k < n { assert ps[..n][k] == (d, i); }
        }
      }
    }
  }

  /** No device goes to two pipelines, counting those already recorded. */
  ghost predicate Consistent<D>(was: map<D, int>, ps: seq<(D, int)>) {
    && (forall k | 0 <= k < |ps| && ps[k].0 in was :: was[ps[k].0] == ps[k].1)
    && (forall j, k | 0 <= j < |ps| && 0 <= k < |ps| && ps[j].0 == ps[k].0 :: ps[j].1 == ps[k].1)
  }

  /** The record after the assignments `ps` have been added to `was`. */
  ghost predicate Extends<D>(now: map<D, int>, was: map<D, int>, ps: seq<(D, int)>) {
    && (forall d <- was :: d in now && now[d] == was[d])
    && (forall k | 0 <= k < |ps| :: ps[k].0 in now && now[ps[k].0] == ps[k].1)
    && (forall d <- now :: d in was || exists k :: 0 <= k < |ps| && ps[k] == (d, now[d]))
  }

  /** Adds one assignment to the record and to its stage; an error if the device is elsewhere. */
  method Record<D(==)>(now: map<D, int>, stages: seq<seq<D>>, d: D, i: nat,
                       ghost was: map<D, int>, ghost ps: seq<(D, int)>)
    returns (ok: bool, next: map<D, int>, nextStages: seq<seq<D>>)
    requires i < |stages| && Extends(now, was, ps) && Consistent(was, ps)
    requires forall p | 0 <= p < |stages| :: stages[p] == StageFrom(ps, p)
    ensures ok <==> Consistent(was, ps + [(d, i)])
    ensures ok ==> Extends(next, was, ps + [(d, i)])
    ensures ok ==>
              |nextStages| == |stages| && forall p | 0 <= p < |stages| :: nextStages[p] == StageFrom(ps + [(d, i)], p)
  {
    ghost var more := ps + [(d, i)];
    assert more[..|ps|] == ps && more[|ps|] == (d, i);
    ok, next, nextStages := true, now, stages[i := stages[i] + [d]];
    if d in now {
      RecordedBefore(now, was, ps, d, i);
      if now[d] != i {
        ok := false;
      }
    } else {
      next := now[d := i];
      RecordedNow(now, was, ps, d, i);
    }
  }

  lemma RecordedBefore<D>(now: map<D, int>, was: map<D, int>, ps: seq<(D, int)>, d: D, i: int)
    requires Extends(now, was, ps) && Consistent(was, ps) && d in now
    ensures now[d] == i <==> Consistent(was, ps + [(d, i)])
    ensures now[d] == i ==> Extends(now, was, ps + [(d, i)])
  {
    var more := ps + [(d, i)];
    assert more[|ps|] == (d, i);
    forall k | 0 <= k < |ps| ensures more[k] == ps[k] { }
    if now[d] != i && d !in was {
      var k :| 0 <= k < |ps| && ps[k] == (d, now[d]);
      assert more[k] == (d, now[d]);
    }
    if now[d] == i {
      forall e | e in now ensures e in was || exists k :: 0 <= k < |more| && more[k] == (e, now[e]) {
        if e !in was {
          var k :| 0 <= k < |ps| && ps[k] == (e, now[e]);
          assert more[k] == (e, now[e]);
        }
      }
    }
  }

  lemma RecordedNow<D>(now: map<D, int>, was: map<D, int>, ps: seq<(D, int)>, d: D, i: int)
    requires Extends(now, was, ps) && Consistent(was, ps) && d !in now
    ensures Consistent(was, ps + [(d, i)]) && Extends(now[d := i], was, ps + [(d, i)])
  {
    var more, next := ps + [(d, i)], now[d := i];
    assert more[|ps|] == (d, i);
    forall k | 0 <= k < |ps| ensures more[k] == ps[k] && ps[k].0 != d { }
    forall e | e in next ensures e in was || exists k :: 0 <= k < |more| && more[k] == (e, next[e]) {
      if e != d && e !in was {
        var k :| 0 <= k < |ps| && ps[k] == (e, now[e]);
        assert more[k] == (e, next[e]);
      }
    }
  }

  // ---------- the assignments of one parameter ----------

  /** One layout: device `x` goes to the pipeline of its duplicate coordinate. */
  ghost function HomoPairs<D>(dg: seq<D>, m: Mesh, ratio: nat): (ps: seq<(D, int)>)
    requires m.Valid() && ratio >= 1
    ensures |ps| == |dg|
    ensures forall x | 0 <= x < |dg| :: ps[x] == (dg[x], PlaceAlong(m, DUPLICATE, x) / ratio)
  {
    hide Mesh.Valid, PlaceAlong;
    seq(|dg|, x requires 0 <= x < |dg| => (dg[x], PlaceAlong(m, DUPLICATE, x) / ratio))
  }

  /** Several layouts: `ratio` neighbouring groups share a pipeline. */
  ghost function HeteroPairs<D>(groups: seq<seq<D>>, ratio: nat): seq<(D, int)>
    requires ratio >= 1
  {
    if groups == [] then [] else
      var k := |groups| - 1;
      HeteroPairs(groups[..k], ratio) + GroupPairs(groups[k], k / ratio)
  }

  ghost function GroupPairs<D>(g: seq<D>, i: int): (ps: seq<(D, int)>)
    ensures |ps| == |g| && forall x | 0 <= x < |g| :: ps[x] == (g[x], i)
  {
    seq(|g|, x requires 0 <= x < |g| => (g[x], i))
  }

  ghost predicate Proper<D>(op: ParamOp<D>)
    reads op.layouts
  {
    forall i | 0 <= i < |op.layouts| :: op.layouts[i].Value().Valid()
  }

  /** How many ways the parameter is replicated: groups of the union, or the duplicate size. */
  function Replicas<D>(op: ParamOp<D>): int
    requires |op.groups| == |op.layouts| > 0
    reads op.layouts
  {
    if |op.groups| > 1 then |op.groups| else op.layouts[0].Value().Dim(DUPLICATE)
  }

  /** The assertions on a single parameter. */
  predicate Acceptable<D>(op: ParamOp<D>, num: nat)
    requires num >= 1
    reads op.layouts
  {
    && |op.groups| == |op.layouts| > 0
    && (|op.groups| > 1 ==> op.heteroDim == DUPLICATE)
    && Replicas(op) % num == 0 && Replicas(op) >= num
  }

  ghost function Pairs<D>(op: ParamOp<D>, num: nat): seq<(D, int)>
    requires num >= 1 && Proper(op) && Acceptable(op, num)
    reads op.layouts
  {
    RatioPositive(Replicas(op), num);
    hide Mesh.Valid;
    if |op.groups| > 1 then HeteroPairs(op.groups, Replicas(op) / num)
    else HomoPairs(op.groups[0], op.layouts[0].Value(), Replicas(op) / num)
  }

  lemma RatioPositive(n: int, num: nat)
    requires num >= 1 && n % num == 0 && n >= num
    ensures n / num >= 1 && n == num * (n / num)
  {
  }

  // ---------- adding stages ----------

  /** A pipeline with one more stage, unless that is empty or repeats the last one. */
  function WithStage<D(==)>(pipeline: seq<seq<D>>, stage: seq<D>): seq<seq<D>> {
    if stage == [] || (pipeline != [] && pipeline[|pipeline| - 1] == stage) then pipeline else pipeline + [stage]
  }

  /** A stage is refused when it repeats any but the last stage of its pipeline. */
  ghost predicate Repeats<D>(pipeline: seq<seq<D>>, stage: seq<D>) {
    stage != [] && exists j :: 0 <= j < |pipeline| - 1 && pipeline[j] == stage
  }

  class Deduction<D(==)> {
    var num: nat
    var pipelineOf: map<D, int>
    var pipelines: seq<seq<seq<D>>>

    /**
     Every stage holds recorded devices of its own pipeline, the stages of a pipeline are
     distinct, and every recorded device is in some stage of its pipeline.
     */
    ghost predicate Valid()
      reads this
    {
      num >= 1 && Partition(num, pipelineOf, pipelines)
    }

    constructor (pipelineNum: nat)
      requires pipelineNum >= 1
      ensures Valid() && num == pipelineNum == |pipelines| && pipelineOf == map[]
      ensures forall p | 0 <= p < |pipelines| :: pipelines[p] == []
    {
      num := pipelineNum;
      pipelineOf := map[];
      pipelines := seq(pipelineNum, i => []);
    }

    /** Adds the stages of one parameter. Errors are exactly those of the source's assertions. */
    method AddParameter(op: ParamOp<D>) returns (ok: bool)
      requires Valid() && Proper(op)
      modifies this
      ensures ok ==> Valid() && num == old(num) == |pipelines| && Acceptable(op, num)
      ensures ok <==> Acceptable(op, old(num)) && Consistent(old(pipelineOf), Pairs(op, old(num)))
                      && forall p | 0 <= p < old(num) :: !Repeats(old(pipelines)[p], StageFrom(Pairs(op, old(num)), p))
      ensures ok ==> Extends(pipelineOf, old(pipelineOf), Pairs(op, num))
      ensures ok ==>
                forall p | 0 <= p < num :: pipelines[p] == WithStage(old(pipelines)[p], StageFrom(Pairs(op, num), p))
    {
      hide *;
      ValidMeans();
      ok := CheckParameter(op, num);
      if !ok {
        return;
      }
      ghost var ps := Pairs(op, num);
      PairsInRange(op, num);
      var now, stages, after;
      ok, now, stages := Assign(op, num, pipelineOf);
      if !ok {
        return;
      }
      ok, after := AddStages(num, pipelines, stages);
      if ok {
        PartitionKept(num, pipelineOf, now, pipelines, after, ps, stages);
      }
      pipelineOf, pipelines := now, after;
      if ok {
        ValidMeans();
      }
    }

    lemma ValidMeans()
      ensures Valid() <==> num >= 1 && Partition(num, pipelineOf, pipelines)
      ensures Valid() ==> |pipelines| == num
    {
    }
  }

  /** The assertions on a single parameter, in the order they are raised. */
  method CheckParameter<D>(op: ParamOp<D>, num: nat) returns (ok: bool)
    requires num >= 1
    ensures ok <==> Acceptable(op, num)
    ensures ok <==>
            && |op.groups| == |op.layouts| > 0
            && (|op.groups| > 1 ==> op.heteroDim == DUPLICATE)
            && var copies := if |op.groups| > 1 then |op.groups| else op.layouts[0].Value().Dim(DUPLICATE);
               copies % num == 0 && copies >= num
  {
    if |op.groups| != |op.layouts| || |op.groups| == 0 {
      return false;
    }
    if |op.groups| > 1 && op.heteroDim != DUPLICATE {
      return false;
    }
    var replicas := Replicas(op);
    return replicas % num == 0 && replicas >= num;
  }

  /** Sends every device of a parameter to its pipeline. */
  method Assign<D(==)>(
    op: ParamOp<D>, num: nat, was: map<D, int>) returns (ok: bool, now: map<D, int>, stages: seq<seq<D>>)
    requires num >= 1 && Proper(op) && Acceptable(op, num)
    ensures ok <==> Consistent(was, Pairs(op, num))
    ensures ok ==> Extends(now, was, Pairs(op, num))
    ensures ok ==> |stages| == num && forall p | 0 <= p < num :: stages[p] == StageFrom(Pairs(op, num), p)
  {
    hide Mesh.Valid, Extends, Consistent, StageFrom, HomoPairs, HeteroPairs;
    var replicas := Replicas(op);
    RatioPositive(replicas, num);
    var ratio := replicas / num;
    if |op.groups| == 1 {
      ok, now, stages := AssignHomo(num, was, op.groups[0], op.layouts[0], ratio);
    } else {
      ok, now, stages := AssignHetero(num, was, op.groups, ratio);
    }
  }

  ghost predicate Partition<D>(num: nat, pipelineOf: map<D, int>, pipelines: seq<seq<seq<D>>>) {
    && |pipelines| == num
    && (forall p, s, d | 0 <= p < num && s in pipelines[p] && d in s :: d in pipelineOf && pipelineOf[d] == p)
    && (forall p | 0 <= p < num :: NoDup(pipelines[p]))
    && (forall d <- pipelineOf :: 0 <= pipelineOf[d] < num && exists s :: s in pipelines[pipelineOf[d]] && d in s)
  }

  method AssignHomo<D(==)>(num: nat, was: map<D, int>, dg: seq<D>, ds: DistributedStates, ratio: nat)
    returns (ok: bool, now: map<D, int>, stages: seq<seq<D>>)
    requires num >= 1 && ds.Value().Valid() && ratio >= 1 && ds.Value().Dim(DUPLICATE) == num * ratio
    ensures ok <==> Consistent(was, HomoPairs(dg, ds.Value(), ratio))
    ensures ok ==> Extends(now, was, HomoPairs(dg, ds.Value(), ratio))
    ensures ok ==>
              |stages| == num && forall p | 0 <= p < num :: stages[p] == StageFrom(HomoPairs(dg, ds.Value(), ratio), p)
  {
    hide Mesh.Valid, PlaceAlong, Consistent, Extends, Mesh.Coord;
    var m := ds.Value();
    ghost var all := HomoPairs(dg, m, ratio);
    now, stages := was, seq(num, i => []);
    assert all[..0] == [];
    NothingAssigned(was, all[..0]);
    for x := 0 to |dg|
      invariant Consistent(was, all[..x]) && Extends(now, was, all[..x])
      invariant |stages| == num && forall p | 0 <= p < num :: stages[p] == StageFrom(all[..x], p)
    {
      hide StageFrom;
      var index := ds.MapDeviceToStateIndex(x);
      PlaceIs(m, DUPLICATE, x, index);
      var dup := if ds.Value().Dim(DUPLICATE) == 1 then 0 else if DUPLICATE in index then index[DUPLICATE] else 0;
      DupOne(m, x);
      PipelineInRange(m, num, ratio, x);
      assert all[..x + 1] == all[..x] + [(dg[x], dup / ratio)];
      ok, now, stages := Record(now, stages, dg[x], dup / ratio, was, all[..x]);
      if !ok {
        Inconsistent(was, all, x + 1);
        return;
      }
    }
    assert all[..|dg|] == all;
    ok := true;
  }

  lemma NothingAssigned<D>(was: map<D, int>, ps: seq<(D, int)>)
    requires |ps| == 0
    ensures Consistent(was, ps) && Extends(was, was, ps)
  {
  }

  lemma DupOne(m: Mesh, x: nat)
    requires m.Valid()
    ensures m.Dim(DUPLICATE) == 1 ==> PlaceAlong(m, DUPLICATE, x) == 0
  {
    if DUPLICATE in m.order { var i := IndexOf(m.order, DUPLICATE); }
  }

  lemma PipelineInRange(m: Mesh, num: nat, ratio: nat, x: nat)
    requires m.Valid() && num >= 1 && ratio >= 1 && m.Dim(DUPLICATE) == num * ratio
    ensures PlaceAlong(m, DUPLICATE, x) / ratio < num
  {
    assert PlaceAlong(m, DUPLICATE, x) < num * ratio by {
      assert m.Dim(DUPLICATE) >= 1;
      if DUPLICATE in m.order { var i := IndexOf(m.order, DUPLICATE); }
    }
    hide Mesh.Valid, PlaceAlong;
    SpanInRange(PlaceAlong(m, DUPLICATE, x), num, ratio);
  }

  /** A conflict among the first assignments is a conflict. */
  lemma Inconsistent<D>(was: map<D, int>, ps: seq<(D, int)>, k: nat)
    requires k <= |ps| && !Consistent(was, ps[..k])
    ensures !Consistent(was, ps)
  {
    forall i | 0 <= i < k ensures ps[..k][i] == ps[i] { }
  }

  method AssignHetero<D(==)>(num: nat, was: map<D, int>, groups: seq<seq<D>>, ratio: nat)
    returns (ok: bool, now: map<D, int>, stages: seq<seq<D>>)
    requires num >= 1 && ratio >= 1 && |groups| == num * ratio
    ensures ok <==> Consistent(was, HeteroPairs(groups, ratio))
    ensures ok ==> Extends(now, was, HeteroPairs(groups, ratio))
    ensures ok ==> |stages| == num && forall p | 0 <= p < num :: stages[p] == StageFrom(HeteroPairs(groups, ratio), p)
  {
    hide Consistent, Extends, StageFrom;
    now, stages := was, seq(num, i => []);
    NothingAssigned(was, HeteroPairs(groups[..0], ratio));
    NoStages(stages, HeteroPairs(groups[..0], ratio));
    for i := 0 to num
      invariant i * ratio <= |groups|
      invariant Progress(now, was, stages, num, HeteroPairs(groups[..i * ratio], ratio))
    {
      NextBlock(i, num, ratio);
      for j := 0 to ratio
        invariant Progress(now, was, stages, num, HeteroPairs(groups[..i * ratio + j], ratio))
      {
        var k := i * ratio + j;
        DivModOf(i, ratio, j);
        assert groups[..k + 1][..k] == groups[..k];
        ok, now, stages := AssignGroup(num, now, stages, groups[k], i, was, HeteroPairs(groups[..k], ratio));
        if !ok {
          HeteroInconsistent(was, groups, ratio, k + 1);
          return;
        }
      }
    }
    assert groups[..num * ratio] == groups;
    ok := true;
  }

  lemma NextBlock(i: nat, num: nat, ratio: nat)
    requires i < num
    ensures i * ratio + ratio <= num * ratio && (i + 1) * ratio == i * ratio + ratio
  {
    MulDist(i, 1, ratio);
    MulMono(i + 1, num, ratio);
  }

  lemma NoStages<D>(stages: seq<seq<D>>, ps: seq<(D, int)>)
    requires |ps| == 0 && forall p | 0 <= p < |stages| :: stages[p] == []
    ensures forall p | 0 <= p < |stages| :: stages[p] == StageFrom(ps, p)
  {
  }

  ghost predicate Progress<D>(now: map<D, int>, was: map<D, int>, stages: seq<seq<D>>, num: nat, ps: seq<(D, int)>) {
    && Consistent(was, ps) && Extends(now, was, ps)
    && |stages| == num && forall p | 0 <= p < num :: stages[p] == StageFrom(ps, p)
  }

  method AssignGroup<D(==)>(num: nat, now: map<D, int>, stages: seq<seq<D>>, g: seq<D>, i: nat,
                            ghost was: map<D, int>, ghost ps: seq<(D, int)>)
    returns (ok: bool, next: map<D, int>, nextStages: seq<seq<D>>)
    requires i < num && Progress(now, was, stages, num, ps)
    ensures ok <==> Consistent(was, ps + GroupPairs(g, i))
    ensures ok ==> Progress(next, was, nextStages, num, ps + GroupPairs(g, i))
  {
    hide Consistent, Extends, StageFrom;
    next, nextStages := now, stages;
    ghost var all := ps + GroupPairs(g, i);
    assert all[..|ps| + 0] == ps;
    for x := 0 to |g|
      invariant Progress(next, was, nextStages, num, all[..|ps| + x])
    {
      assert all[..|ps| + x + 1] == all[..|ps| + x] + [(g[x], i)];
      ok, next, nextStages := Record(next, nextStages, g[x], i, was, all[..|ps| + x]);
      if !ok {
        Inconsistent(was, all, |ps| + x + 1);
        return;
      }
    }
    assert all[..|ps| + |g|] == all;
    ok := true;
  }

  lemma {:induction false} HeteroInconsistent<D>(was: map<D, int>, groups: seq<seq<D>>, ratio: nat, k: nat)
    requires ratio >= 1 && k <= |groups| && !Consistent(was, HeteroPairs(groups[..k], ratio))
    ensures !Consistent(was, HeteroPairs(groups, ratio))
    decreases |groups| - k
  {
    hide Consistent;
    if k < |groups| {
      assert groups[..k + 1][..k] == groups[..k];
      var ps := HeteroPairs(groups[..k + 1], ratio);
      assert ps[..|HeteroPairs(groups[..k], ratio)|] == HeteroPairs(groups[..k], ratio);
      Inconsistent(was, ps, |HeteroPairs(groups[..k], ratio)|);
      HeteroInconsistent(was, groups, ratio, k + 1);
    } else {
      assert groups[..k] == groups;
    }
  }

  /** Appends each non-empty stage to its pipeline, refusing a stage seen before the last one. */
  method AddStages<D(==)>(num: nat, was: seq<seq<seq<D>>>, stages: seq<seq<D>>)
    returns (ok: bool, now: seq<seq<seq<D>>>)
    requires |was| == num == |stages|
    ensures ok <==> forall p | 0 <= p < num :: !Repeats(was[p], stages[p])
    ensures ok ==> |now| == num && forall p | 0 <= p < num :: now[p] == WithStage(was[p], stages[p])
    ensures ok <==> forall p, j | 0 <= p < num && stages[p] != [] && 0 <= j < |was[p]| - 1 :: was[p][j] != stages[p]
    ensures ok ==> forall p | 0 <= p < num ::
              if stages[p] == [] || (was[p] != [] && was[p][|was[p]| - 1] == stages[p]) then now[p] == was[p]
              else now[p] == was[p] + [stages[p]]
  {
    now := was;
    for i := 0 to num
      invariant |now| == num
      invariant forall p | 0 <= p < i :: now[p] == WithStage(was[p], stages[p]) && !Repeats(was[p], stages[p])
      invariant forall p | i <= p < num :: now[p] == was[p]
    {
      if stages[i] != [] {
        var len := |now[i]|;
        for j := 0 to len
          invariant forall k | 0 <= k < j && k < len - 1 :: now[i][k] != stages[i]
        {
          if j != len - 1 && stages[i] == now[i][j] {
            return false, now;
          }
        }
        if len == 0 || now[i][len - 1] != stages[i] {
          now := now[i := now[i] + [stages[i]]];
        }
      }
    }
    return true, now;
  }

  lemma PairsInRange<D>(op: ParamOp<D>, num: nat)
    requires num >= 1 && Proper(op) && Acceptable(op, num)
    ensures forall k | 0 <= k < |Pairs(op, num)| :: 0 <= Pairs(op, num)[k].1 < num
  {
    hide Mesh.Valid, PlaceAlong;
    var ratio := Replicas(op) / num;
    RatioPositive(Replicas(op), num);
    if |op.groups| > 1 {
      HeteroInRange(op.groups, num, ratio);
    } else {
      var m := op.layouts[0].Value();
      forall x | 0 <= x < |op.groups[0]| ensures PlaceAlong(m, DUPLICATE, x) / ratio < num {
        PipelineInRange(m, num, ratio, x);
      }
    }
  }

  lemma {:induction false} HeteroInRange<D>(groups: seq<seq<D>>, num: nat, ratio: nat)
    requires ratio >= 1 && |groups| <= num * ratio
    ensures forall k | 0 <= k < |HeteroPairs(groups, ratio)| :: 0 <= HeteroPairs(groups, ratio)[k].1 < num
  {
    if groups != [] {
      var n := |groups| - 1;
      HeteroInRange(groups[..n], num, ratio);
      SpanInRange(n, num, ratio);
      InRangeAppend(HeteroPairs(groups[..n], ratio), GroupPairs(groups[n], n / ratio), num);
    }
  }

  lemma InRangeAppend<D>(ps: seq<(D, int)>, qs: seq<(D, int)>, num: nat)
    requires forall k | 0 <= k < |ps| :: 0 <= ps[k].1 < num
    requires forall k | 0 <= k < |qs| :: 0 <= qs[k].1 < num
    ensures forall k | 0 <= k < |ps + qs| :: 0 <= (ps + qs)[k].1 < num
  {
  }

  lemma PartitionKept<D>(
    num: nat, was: map<D, int>, now: map<D, int>, before: seq<seq<seq<D>>>, after: seq<seq<seq<D>>>,
    ps: seq<(D, int)>, stages: seq<seq<D>>)
    requires Partition(num, was, before) && Extends(now, was, ps) && |stages| == num == |after|
    requires forall k | 0 <= k < |ps| :: 0 <= ps[k].1 < num
    requires forall p | 0 <= p < num :: stages[p] == StageFrom(ps, p)
    requires forall p | 0 <= p < num :: !Repeats(before[p], stages[p]) && after[p] == WithStage(before[p], stages[p])
    ensures Partition(num, now, after)
  {
    hide StageFrom, Extends, Partition, WithStage, Repeats;
    forall p | 0 <= p < num ensures forall s, d | s in after[p] && d in s :: d in now && now[d] == p {
      StagesRecorded(num, was, now, before, after[p], ps, p);
    }
    forall p | 0 <= p < num ensures NoDup(after[p]) {
      StagesDistinct(num, was, before, after[p], stages[p], p);
    }
    forall d | d in now ensures 0 <= now[d] < num && exists s :: s in after[now[d]] && d in s {
      EveryDeviceStaged(num, was, now, before, after, ps, d);
    }
    assert Partition(num, now, after) by { IsPartition(num, now, after); }
  }

  lemma IsPartition<D>(num: nat, now: map<D, int>, after: seq<seq<seq<D>>>)
    requires |after| == num
    requires forall p | 0 <= p < num :: forall s, d | s in after[p] && d in s :: d in now && now[d] == p
    requires forall p | 0 <= p < num :: NoDup(after[p])
    requires forall d <- now :: 0 <= now[d] < num && exists s :: s in after[now[d]] && d in s
    ensures Partition(num, now, after)
  {
  }

  lemma StagesRecorded<D>(num: nat, was: map<D, int>, now: map<D, int>, before: seq<seq<seq<D>>>, after: seq<seq<D>>,
                          ps: seq<(D, int)>, p: nat)
    requires Partition(num, was, before) && Extends(now, was, ps) && p < num
    requires after == WithStage(before[p], StageFrom(ps, p))
    ensures forall s, d | s in after && d in s :: d in now && now[d] == p
  {
    hide StageFrom;
    StageMembers(ps, p);
    forall s, d | s in after && d in s ensures d in now && now[d] == p {
      if s in before[p] {
        assert d in was;
      } else {
        assert s == StageFrom(ps, p);
      }
    }
  }

  lemma StagesDistinct<D>(
    num: nat, was: map<D, int>, before: seq<seq<seq<D>>>, after: seq<seq<D>>, stage: seq<D>, p: nat)
    requires Partition(num, was, before) && p < num
    requires !Repeats(before[p], stage) && after == WithStage(before[p], stage)
    ensures NoDup(after)
  {
  }

  lemma EveryDeviceStaged<D>(num: nat, was: map<D, int>, now: map<D, int>, before: seq<seq<seq<D>>>,
                             after: seq<seq<seq<D>>>, ps: seq<(D, int)>, d: D)
    requires Partition(num, was, before) && Extends(now, was, ps) && |after| == num && d in now
    requires forall k | 0 <= k < |ps| :: 0 <= ps[k].1 < num
    requires forall p | 0 <= p < num :: after[p] == WithStage(before[p], StageFrom(ps, p))
    ensures 0 <= now[d] < num && exists s :: s in after[now[d]] && d in s
  {
    hide StageFrom;
    if d in was {
      var s :| s in before[was[d]] && d in s;
      InWithStage(before[was[d]], StageFrom(ps, was[d]), s);
    } else {
      var p := now[d];
      StageMembers(ps, p);
      InWithStage(before[p], StageFrom(ps, p), StageFrom(ps, p));
    }
  }

  lemma InWithStage<D>(pipeline: seq<seq<D>>, stage: seq<D>, s: seq<D>)
    requires s in pipeline || (s == stage && s != [])
    ensures s in WithStage(pipeline, stage)
  {
    var w := WithStage(pipeline, stage);
    if s in pipeline {
      var i := IndexOf(pipeline, s);
      assert w[i] == s;
    } else {
      assert w[|w| - 1] == s;
    }
  }

  // ---------- what a run of deductions guarantees ----------

  /** The assignments of an operation, none if it is not a parameter. */
  ghost function PairsOf<D>(op: ParamOp<D>, num: nat): seq<(D, int)>
    requires num >= 1 && Proper(op)
    reads op.layouts
  {
    if op.isParam && Acceptable(op, num) then Pairs(op, num) else []
  }

  ghost predicate AllProper<D>(ops: seq<ParamOp<D>>)
    reads set i, j | 0 <= i < |ops| && 0 <= j < |ops[i].layouts| :: ops[i].layouts[j]
  {
    forall i | 0 <= i < |ops| :: Proper(ops[i])
  }

  lemma ProperAt<D>(ops: seq<ParamOp<D>>, num: nat, i: nat)
    requires num >= 1 && AllProper(ops) && i < |ops|
    ensures Proper(ops[i]) && i < |PairLists(ops, num)| == |ops| && PairLists(ops, num)[i] == PairsOf(ops[i], num)
  {
    hide Proper, PairsOf;
  }

  ghost function PairLists<D>(ops: seq<ParamOp<D>>, num: nat): (trace: seq<seq<(D, int)>>)
    requires num >= 1 && AllProper(ops)
    reads set i, j | 0 <= i < |ops| && 0 <= j < |ops[i].layouts| :: ops[i].layouts[j]
    ensures |trace| == |ops| && forall i | 0 <= i < |ops| :: trace[i] == PairsOf(ops[i], num)
  {
    hide PairsOf, Proper, Mesh.Valid;
    if ops == [] then [] else PairLists(ops[..|ops| - 1], num) + [PairsOf(ops[|ops| - 1], num)]
  }

  ghost function AllPairs<D>(trace: seq<seq<(D, int)>>, n: nat): seq<(D, int)>
    requires n <= |trace|
  {
    if n == 0 then [] else AllPairs(trace, n - 1) + trace[n - 1]
  }

  /** The stages of pipeline `p` after the first `n` operations. */
  ghost function StagesAfter<D>(trace: seq<seq<(D, int)>>, n: nat, p: int): seq<seq<D>>
    requires n <= |trace|
  {
    if n == 0 then [] else WithStage(StagesAfter(trace, n - 1, p), StageFrom(trace[n - 1], p))
  }

  /** No operation gives a pipeline a stage that it had before its last one. */
  ghost predicate NeverRepeats<D>(trace: seq<seq<(D, int)>>, n: nat, num: nat)
    requires n <= |trace|
  {
    forall i, p | 0 <= i < n && 0 <= p < num :: !Repeats(StagesAfter(trace, i, p), StageFrom(trace[i], p))
  }

  ghost predicate Follows<D>(
    trace: seq<seq<(D, int)>>, n: nat, num: nat, pipelineOf: map<D, int>, pipelines: seq<seq<seq<D>>>)
    requires n <= |trace|
  {
    && Consistent(map[], AllPairs(trace, n)) && NeverRepeats(trace, n, num)
    && Extends(pipelineOf, map[], AllPairs(trace, n))
    && |pipelines| == num && forall p | 0 <= p < num :: pipelines[p] == StagesAfter(trace, n, p)
  }

  lemma FollowsNext<D>(trace: seq<seq<(D, int)>>, n: nat, num: nat, was: map<D, int>, before: seq<seq<seq<D>>>)
    requires n < |trace| && Follows(trace, n, num, was, before)
    ensures Consistent(map[], AllPairs(trace, n + 1)) && NeverRepeats(trace, n + 1, num)
            <==> Consistent(was, trace[n]) && forall p | 0 <= p < num :: !Repeats(before[p], StageFrom(trace[n], p))
  {
    hide Repeats, StageFrom, WithStage, Consistent, Extends;
    ConsistentAppend(was, AllPairs(trace, n), trace[n]);
    if NeverRepeats(trace, n + 1, num) {
      forall p | 0 <= p < num ensures !Repeats(before[p], StageFrom(trace[n], p)) {
        assert !Repeats(StagesAfter(trace, n, p), StageFrom(trace[n], p));
      }
    }
  }

  lemma ConsistentAppend<D>(was: map<D, int>, ps: seq<(D, int)>, qs: seq<(D, int)>)
    requires Consistent(map[], ps) && Extends(was, map[], ps)
    ensures Consistent(map[], ps + qs) <==> Consistent(was, qs)
    ensures forall now | Extends(now, was, qs) :: Extends(now, map[], ps + qs)
  {
    var all := ps + qs;
    forall k | 0 <= k < |ps| ensures all[k] == ps[k] { }
    forall k | 0 <= k < |qs| ensures all[|ps| + k] == qs[k] { }
    if Consistent(was, qs) {
      forall j, k | 0 <= j < |all| && 0 <= k < |all| && all[j].0 == all[k].0 ensures all[j].1 == all[k].1 {
        PairAt(was, ps, qs, j);
        PairAt(was, ps, qs, k);
      }
    }
    if Consistent(map[], all) {
      forall k | 0 <= k < |qs| && qs[k].0 in was ensures was[qs[k].0] == qs[k].1 {
        var j :| 0 <= j < |ps| && ps[j] == (qs[k].0, was[qs[k].0]);
        assert all[j].0 == all[|ps| + k].0;
      }
      forall j, k | 0 <= j < |qs| && 0 <= k < |qs| && qs[j].0 == qs[k].0 ensures qs[j].1 == qs[k].1 {
        assert all[|ps| + j].0 == all[|ps| + k].0;
      }
    }
    forall now | Extends(now, was, qs) ensures Extends(now, map[], all) {
      ExtendsAppend(now, was, ps, qs);
    }
  }

  lemma PairAt<D>(was: map<D, int>, ps: seq<(D, int)>, qs: seq<(D, int)>, k: nat)
    requires Extends(was, map[], ps) && k < |ps| + |qs|
    ensures k < |ps| ==> (ps + qs)[k] == ps[k] && ps[k].0 in was && was[ps[k].0] == ps[k].1
    ensures k >= |ps| ==> (ps + qs)[k] == qs[k - |ps|]
  {
  }

  lemma ExtendsAppend<D>(now: map<D, int>, was: map<D, int>, ps: seq<(D, int)>, qs: seq<(D, int)>)
    requires Extends(was, map[], ps) && Extends(now, was, qs)
    ensures Extends(now, map[], ps + qs)
  {
    var all := ps + qs;
    forall k | 0 <= k < |ps| ensures all[k] == ps[k] { }
    forall k | 0 <= k < |qs| ensures all[|ps| + k] == qs[k] { }
    forall k | 0 <= k < |all| ensures all[k].0 in now && now[all[k].0] == all[k].1 {
      PairAt(was, ps, qs, k);
    }
    forall d | d in now ensures exists k :: 0 <= k < |all| && all[k] == (d, now[d]) {
      if d in was {
        var k :| 0 <= k < |ps| && ps[k] == (d, was[d]);
        assert all[k] == (d, now[d]);
      } else {
        var k :| 0 <= k < |qs| && qs[k] == (d, now[d]);
        assert all[|ps| + k] == (d, now[d]);
      }
    }
  }

  /** Whether no assertion fails for any parameter, nor any device or stage clashes. */
  ghost predicate Deducible<D>(ops: seq<ParamOp<D>>, trace: seq<seq<(D, int)>>, n: nat, num: nat)
    requires num >= 1 && |trace| == |ops| && n <= |ops|
    reads set i, j | 0 <= i < |ops| && 0 <= j < |ops[i].layouts| :: ops[i].layouts[j]
  {
    && (forall i | 0 <= i < n && ops[i].isParam :: Acceptable(ops[i], num))
    && Consistent(map[], AllPairs(trace, n)) && NeverRepeats(trace, n, num)
  }

  lemma {:induction false} DeducibleBefore<D>(ops: seq<ParamOp<D>>, trace: seq<seq<(D, int)>>, n: nat, num: nat)
    requires num >= 1 && |trace| == |ops| && n <= |ops| && Deducible(ops, trace, |ops|, num)
    ensures Deducible(ops, trace, n, num)
    decreases |ops| - n
  {
    hide Acceptable, Repeats, StagesAfter;
    if n < |ops| {
      DeducibleBefore(ops, trace, n + 1, num);
      var ps, all := AllPairs(trace, n), AllPairs(trace, n + 1);
      forall k | 0 <= k < |ps| ensures all[k] == ps[k] { }
    }
  }

  /** Adds the stages of all parameters in turn. */
  method Deduce<D(==)>(ops: seq<ParamOp<D>>, num: nat)
    returns (ok: bool, pipelineOf: map<D, int>, pipelines: seq<seq<seq<D>>>, deviceMap: map<D, seq<seq<D>>>)
    requires num >= 1 && AllProper(ops)
    ensures ok <==> Deducible(ops, PairLists(ops, num), |ops|, num)
    ensures ok ==> Follows(PairLists(ops, num), |ops|, num, pipelineOf, pipelines)
    ensures ok ==> Partition(num, pipelineOf, pipelines)
    ensures ok ==> deviceMap.Keys == pipelineOf.Keys
    ensures ok ==>
              forall d <- deviceMap ::
                deviceMap[d] == pipelines[pipelineOf[d]] && exists s :: s in deviceMap[d] && d in s
  {
    hide Mesh.Valid, Partition, Extends, Consistent, Acceptable, PairsOf, Pairs, Follows, AllPairs;
    hide NeverRepeats, PairLists;
    hide Deducible, Deduction.Valid, StageFrom, WithStage, Repeats, StagesAfter, DistributedStates.Value;
    var state := new Deduction<D>(num);
    ghost var trace := PairLists(ops, num);
    FollowsNothing(trace, num, state.pipelineOf, state.pipelines);
    for i := 0 to |ops|
      invariant fresh(state) && state.Valid() && state.num == num == |state.pipelines|
      invariant trace == PairLists(ops, num) && Follows(trace, i, num, state.pipelineOf, state.pipelines)
      invariant forall j | 0 <= j < i && ops[j].isParam :: Acceptable(ops[j], num)
    {
      ProperAt(ops, num, i);
      ok := DeduceStep(state, ops[i], trace, i);
      if !ok {
        NotDeducible(ops, trace, i, num);
        return false, state.pipelineOf, state.pipelines, map[];
      }
    }
    FollowsMeans(trace, |ops|, num, state.pipelineOf, state.pipelines);
    DeducibleMeans(ops, trace, |ops|, num);
    state.ValidMeans();
    pipelineOf, pipelines := state.pipelineOf, state.pipelines;
    deviceMap := DeviceMap(num, pipelineOf, pipelines);
    ok := true;
  }

  lemma DeducibleMeans<D>(ops: seq<ParamOp<D>>, trace: seq<seq<(D, int)>>, n: nat, num: nat)
    requires num >= 1 && |trace| == |ops| && n <= |ops|
    ensures Deducible(ops, trace, n, num) <==>
            && (forall i | 0 <= i < n && ops[i].isParam :: Acceptable(ops[i], num))
            && Consistent(map[], AllPairs(trace, n)) && NeverRepeats(trace, n, num)
  {
    hide Acceptable, Consistent, NeverRepeats;
  }

  lemma NotDeducible<D>(ops: seq<ParamOp<D>>, trace: seq<seq<(D, int)>>, i: nat, num: nat)
    requires num >= 1 && i < |trace| == |ops|
    requires !((ops[i].isParam ==> Acceptable(ops[i], num))
               && Consistent(map[], AllPairs(trace, i + 1)) && NeverRepeats(trace, i + 1, num))
    ensures !Deducible(ops, trace, |ops|, num)
  {
    hide *;
    DeducibleMeans(ops, trace, i + 1, num);
    if Deducible(ops, trace, |ops|, num) {
      DeducibleBefore(ops, trace, i + 1, num);
    }
  }

  /** One round of the loop of `Deduce`. */
  method DeduceStep<D(==)>(
    state: Deduction<D>, op: ParamOp<D>, ghost trace: seq<seq<(D, int)>>, ghost i: nat) returns (ok: bool)
    requires state.Valid() && |state.pipelines| == state.num && Proper(op) && i < |trace|
    requires trace[i] == PairsOf(op, state.num)
    requires Follows(trace, i, state.num, state.pipelineOf, state.pipelines)
    modifies state
    ensures ok <==> (op.isParam ==> Acceptable(op, old(state.num)))
                    && Consistent(map[], AllPairs(trace, i + 1)) && NeverRepeats(trace, i + 1, old(state.num))
    ensures ok ==> state.Valid() && state.num == old(state.num) == |state.pipelines|
    ensures ok ==> Follows(trace, i + 1, state.num, state.pipelineOf, state.pipelines)
  {
    hide Mesh.Valid, Partition, Extends, Consistent, Acceptable, Pairs, Follows, AllPairs, NeverRepeats;
    hide StageFrom, WithStage, Repeats, Proper;
    ghost var num, was, before := state.num, state.pipelineOf, state.pipelines;
    FollowsNext(trace, i, num, was, before);
    if op.isParam {
      ok := state.AddParameter(op);
      if !ok {
        return;
      }
    } else {
      ok := true;
      NothingAdded(was, before);
    }
    FollowsAfter(trace, i, num, was, before, state.pipelineOf, state.pipelines);
  }

  lemma FollowsNothing<D>(trace: seq<seq<(D, int)>>, num: nat, pipelineOf: map<D, int>, pipelines: seq<seq<seq<D>>>)
    requires pipelineOf == map[] && |pipelines| == num && forall p | 0 <= p < num :: pipelines[p] == []
    ensures Follows(trace, 0, num, pipelineOf, pipelines)
  {
  }

  lemma FollowsMeans<D>(
    trace: seq<seq<(D, int)>>, n: nat, num: nat, pipelineOf: map<D, int>, pipelines: seq<seq<seq<D>>>)
    requires n <= |trace| && Follows(trace, n, num, pipelineOf, pipelines)
    ensures Consistent(map[], AllPairs(trace, n)) && NeverRepeats(trace, n, num)
  {
  }

  lemma NothingAdded<D>(was: map<D, int>, before: seq<seq<seq<D>>>)
    ensures Consistent(was, []) && Extends(was, was, [])
    ensures forall p | 0 <= p < |before| ::
              !Repeats(before[p], StageFrom([], p)) && WithStage(before[p], StageFrom([], p)) == before[p]
  {
  }

  lemma FollowsAfter<D>(trace: seq<seq<(D, int)>>, n: nat, num: nat, was: map<D, int>, before: seq<seq<seq<D>>>,
                        now: map<D, int>, after: seq<seq<seq<D>>>)
    requires n < |trace| && Follows(trace, n, num, was, before) && Consistent(was, trace[n])
    requires forall p | 0 <= p < num :: !Repeats(before[p], StageFrom(trace[n], p))
    requires Extends(now, was, trace[n]) && |after| == num
    requires forall p | 0 <= p < num :: after[p] == WithStage(before[p], StageFrom(trace[n], p))
    ensures Follows(trace, n + 1, num, now, after)
  {
    hide Repeats, StageFrom, WithStage, Consistent, Extends;
    FollowsNext(trace, n, num, was, before);
    ConsistentAppend(was, AllPairs(trace, n), trace[n]);
  }

  /** Every parameter's own assignments are in the final record. */
  lemma {:induction false} RecordedEach<D>(trace: seq<seq<(D, int)>>, n: nat, now: map<D, int>, i: nat)
    requires i < n <= |trace|
    requires forall k | 0 <= k < |AllPairs(trace, n)| ::
               AllPairs(trace, n)[k].0 in now && now[AllPairs(trace, n)[k].0] == AllPairs(trace, n)[k].1
    ensures Extends(now, now, trace[i])
  {
    var all, q := AllPairs(trace, n), |AllPairs(trace, n - 1)|;
    if i == n - 1 {
      forall k | 0 <= k < |trace[i]| ensures trace[i][k].0 in now && now[trace[i][k].0] == trace[i][k].1 {
        assert all[q + k] == trace[i][k];
      }
    } else {
      var ps := AllPairs(trace, n - 1);
      forall k | 0 <= k < q ensures ps[k].0 in now && now[ps[k].0] == ps[k].1 {
        assert all[k] == ps[k];
      }
      RecordedEach(trace, n - 1, now, i);
    }
  }

  function DeviceMap<D>(num: nat, pipelineOf: map<D, int>, pipelines: seq<seq<seq<D>>>): (r: map<D, seq<seq<D>>>)
    requires Partition(num, pipelineOf, pipelines)
    ensures r.Keys == pipelineOf.Keys
    ensures forall d <- r :: r[d] == pipelines[pipelineOf[d]] && exists s :: s in r[d] && d in s
  {
    map d | d in pipelineOf :: pipelines[pipelineOf[d]]
  }

  /**
   A homogeneous parameter splits its devices evenly: each pipeline gets the same number, in
   order, and devices with the same duplicate coordinate land together.
   */
  lemma HomoShare<D>(dg: seq<D>, m: Mesh, num: nat, ratio: nat, p: nat)
    requires m.Valid() && num >= 1 && ratio >= 1 && m.Dim(DUPLICATE) == num * ratio && |dg| == m.deviceNum && p < num
    ensures |StageFrom(HomoPairs(dg, m, ratio), p)| * num == m.deviceNum
    ensures StageFrom(HomoPairs(dg, m, ratio), p) == PartBelow(dg, m, DUPLICATE, ratio, p, |dg|)
  {
    hide Mesh.Valid, PlaceAlong;
    StageIsPart(dg, m, ratio, p, |dg|);
    assert HomoPairs(dg, m, ratio)[..|dg|] == HomoPairs(dg, m, ratio);
    PartSize(m, num, ratio, p);
  }

  /**
   In the record that a successful deduction returns, every device of a homogeneous parameter is under
   the pipeline that its duplicate coordinate names; so two of its devices share a pipeline exactly when
   their duplicate coordinates fall into the same span.
   */
  lemma DuplicatesTogether<D>(
    ops: seq<ParamOp<D>>, num: nat, pipelineOf: map<D, int>, pipelines: seq<seq<seq<D>>>, i: nat, x: nat, y: nat)
    requires num >= 1 && AllProper(ops) && Deducible(ops, PairLists(ops, num), |ops|, num)
    requires Follows(PairLists(ops, num), |ops|, num, pipelineOf, pipelines)
    requires i < |ops| && ops[i].isParam && |ops[i].groups| == 1
    requires x < |ops[i].groups[0]| && y < |ops[i].groups[0]|
    ensures |ops[i].layouts| == 1 && ops[i].layouts[0].Value().Valid()
    ensures var dg, m := ops[i].groups[0], ops[i].layouts[0].Value();
            var ratio := m.Dim(DUPLICATE) / num;
            && ratio >= 1 && m.Dim(DUPLICATE) == num * ratio && dg[x] in pipelineOf && dg[y] in pipelineOf
            && pipelineOf[dg[x]] == PlaceAlong(m, DUPLICATE, x) / ratio
            && (pipelineOf[dg[x]] == pipelineOf[dg[y]]
                <==> PlaceAlong(m, DUPLICATE, x) / ratio == PlaceAlong(m, DUPLICATE, y) / ratio)
  {
    hide *;
    var trace := PairLists(ops, num);
    ProperAt(ops, num, i);
    AcceptedParameter(ops, trace, i, num);
    HomoParameter(ops[i], num);
    RecordedInto(trace, |ops|, num, pipelineOf, pipelines);
    RecordedEach(trace, |ops|, pipelineOf, i);
    var dg, m := ops[i].groups[0], ops[i].layouts[0].Value();
    var ratio := m.Dim(DUPLICATE) / num;
    HomoRecorded(pipelineOf, dg, m, ratio, x);
    HomoRecorded(pipelineOf, dg, m, ratio, y);
  }

  /**
   Every device of a group of a heterogeneous parameter is under the same pipeline: `ratio` neighbouring groups
   share one, in the order of the groups.
   */
  lemma GroupsTogether<D>(
    ops: seq<ParamOp<D>>, num: nat, pipelineOf: map<D, int>, pipelines: seq<seq<seq<D>>>, i: nat, g: nat, x: nat)
    requires num >= 1 && AllProper(ops) && Deducible(ops, PairLists(ops, num), |ops|, num)
    requires Follows(PairLists(ops, num), |ops|, num, pipelineOf, pipelines)
    requires i < |ops| && ops[i].isParam && |ops[i].groups| > 1
    requires g < |ops[i].groups| && x < |ops[i].groups[g]|
    ensures var d, ratio := ops[i].groups[g][x], |ops[i].groups| / num;
            && ratio >= 1 && |ops[i].groups| == num * ratio
            && d in pipelineOf && pipelineOf[d] == g / ratio
  {
    hide *;
    var trace := PairLists(ops, num);
    ProperAt(ops, num, i);
    AcceptedParameter(ops, trace, i, num);
    HeteroParameter(ops[i], num);
    RecordedInto(trace, |ops|, num, pipelineOf, pipelines);
    RecordedEach(trace, |ops|, pipelineOf, i);
    var groups := ops[i].groups;
    HeteroPairAt(groups, |groups| / num, g, x);
    ExtendedBy(pipelineOf, HeteroPairs(groups, |groups| / num), (groups[g][x], g / (|groups| / num)));
  }

  lemma HeteroParameter<D>(op: ParamOp<D>, num: nat)
    requires num >= 1 && Proper(op) && op.isParam && Acceptable(op, num) && |op.groups| > 1
    ensures |op.groups| / num >= 1 && |op.groups| == num * (|op.groups| / num)
    ensures PairsOf(op, num) == HeteroPairs(op.groups, |op.groups| / num)
  {
    hide Mesh.Valid, HeteroPairs;
    RatioPositive(Replicas(op), num);
  }

  lemma {:induction false} HeteroPairAt<D>(groups: seq<seq<D>>, ratio: nat, g: nat, x: nat)
    requires ratio >= 1 && g < |groups| && x < |groups[g]|
    ensures (groups[g][x], g / ratio) in HeteroPairs(groups, ratio)
  {
    var n := |groups| - 1;
    if g < n {
      HeteroPairAt(groups[..n], ratio, g, x);
    } else {
      assert GroupPairs(groups[n], n / ratio)[x] == (groups[g][x], g / ratio);
    }
  }

  lemma ExtendedBy<D>(now: map<D, int>, ps: seq<(D, int)>, pair: (D, int))
    requires Extends(now, now, ps) && pair in ps
    ensures pair.0 in now && now[pair.0] == pair.1
  {
    var k := IndexOf(ps, pair);
  }

  lemma AcceptedParameter<D>(ops: seq<ParamOp<D>>, trace: seq<seq<(D, int)>>, i: nat, num: nat)
    requires num >= 1 && |trace| == |ops| && i < |ops| && ops[i].isParam && Deducible(ops, trace, |ops|, num)
    ensures Acceptable(ops[i], num)
  {
    hide Acceptable, Consistent, NeverRepeats;
  }

  lemma HomoParameter<D>(op: ParamOp<D>, num: nat)
    requires num >= 1 && Proper(op) && op.isParam && Acceptable(op, num) && |op.groups| == 1
    ensures |op.layouts| == 1 && op.layouts[0].Value().Valid()
    ensures var m := op.layouts[0].Value();
            && m.Dim(DUPLICATE) / num >= 1 && m.Dim(DUPLICATE) == num * (m.Dim(DUPLICATE) / num)
            && PairsOf(op, num) == HomoPairs(op.groups[0], m, m.Dim(DUPLICATE) / num)
  {
    hide Mesh.Valid, HomoPairs;
    RatioPositive(Replicas(op), num);
  }

  lemma RecordedInto<D>(
    trace: seq<seq<(D, int)>>, n: nat, num: nat, pipelineOf: map<D, int>, pipelines: seq<seq<seq<D>>>)
    requires n <= |trace| && Follows(trace, n, num, pipelineOf, pipelines)
    ensures forall k | 0 <= k < |AllPairs(trace, n)| ::
              AllPairs(trace, n)[k].0 in pipelineOf && pipelineOf[AllPairs(trace, n)[k].0] == AllPairs(trace, n)[k].1
  {
    hide AllPairs, Consistent, NeverRepeats;
  }

  lemma HomoRecorded<D>(pipelineOf: map<D, int>, dg: seq<D>, m: Mesh, ratio: nat, x: nat)
    requires m.Valid() && ratio >= 1 && x < |dg| && Extends(pipelineOf, pipelineOf, HomoPairs(dg, m, ratio))
    ensures dg[x] in pipelineOf && pipelineOf[dg[x]] == PlaceAlong(m, DUPLICATE, x) / ratio
  {
    hide Mesh.Valid, PlaceAlong;
    var ps := HomoPairs(dg, m, ratio);
    assert ps[x].0 == dg[x];
  }

  lemma {:induction false} StageIsPart<D>(dg: seq<D>, m: Mesh, ratio: nat, p: nat, i: nat)
    requires m.Valid() && ratio >= 1 && i <= |dg|
    ensures StageFrom(HomoPairs(dg, m, ratio)[..i], p) == PartBelow(dg, m, DUPLICATE, ratio, p, i)
  {
    hide Mesh.Valid, PlaceAlong, PartBelow;
    var ps := HomoPairs(dg, m, ratio);
    if i > 0 {
      StageIsPart(dg, m, ratio, p, i - 1);
      assert ps[..i][..i - 1] == ps[..i - 1];
      PartNext(dg, m, DUPLICATE, ratio, p, i - 1);
    }
  }

  lemma PartSize(m: Mesh, num: nat, ratio: nat, p: nat)
    requires m.Valid() && num >= 1 && ratio >= 1 && m.Dim(DUPLICATE) == num * ratio && p < num
    ensures m.deviceNum >= 0 && |GroupBelow(m, DUPLICATE, ratio, p, m.deviceNum)| * num == m.deviceNum
  {
    SizePositive(m);
    if m.Dim(DUPLICATE) > 1 {
      assert Cut(m, DUPLICATE, num, ratio);
      GroupSize(m, DUPLICATE, num, ratio, p);
    } else {
      OnlyPipeline(num, ratio);
      WholeGroup(m, m.deviceNum);
    }
  }

  lemma OnlyPipeline(num: nat, ratio: nat)
    requires num >= 1 && ratio >= 1 && num * ratio <= 1
    ensures num == 1 && ratio == 1
  {
    MulMono(1, ratio, num);
    MulMono(1, num, ratio);
    MulComm(ratio, num);
  }

  lemma {:induction false} WholeGroup(m: Mesh, i: nat)
    requires m.Valid() && m.Dim(DUPLICATE) <= 1
    ensures |GroupBelow(m, DUPLICATE, 1, 0, i)| == i
  {
    if i > 0 {
      WholeGroup(m, i - 1);
      DupOne(m, i - 1);
      assert m.Dim(DUPLICATE) == 1;
    }
  }
}
