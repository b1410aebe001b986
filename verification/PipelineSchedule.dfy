/**
 The task lists of pipeline stages: 1F1B ("pipedream flush"), GPipe, and forward only.
 */
module PipelineSchedule {

  /** A bubble, a forward or a backward; the source writes them -1, 0 and 1. */
  datatype Task = Bubble(batch: nat) | Forward(batch: nat) | Backward(batch: nat)

  function Forwards(tasks: seq<Task>): (n: nat)
    ensures n <= |tasks|
  {
    if tasks == [] then 0 else
      Forwards(tasks[..|tasks| - 1]) + if tasks[|tasks| - 1].Forward? then 1 else 0
  }

  function Backwards(tasks: seq<Task>): (n: nat)
    ensures n <= |tasks|
  {
    if tasks == [] then 0 else
      Backwards(tasks[..|tasks| - 1]) + if tasks[|tasks| - 1].Backward? then 1 else 0
  }

  /** Place `k` holds the next forward, or the next backward and its forward came before. */
  ghost predicate InTurn(tasks: seq<Task>, k: nat)
    requires k < |tasks|
  {
    match tasks[k]
    case Forward(i) => i == Forwards(tasks[..k])
    case Backward(i) => i == Backwards(tasks[..k]) && i < Forwards(tasks[..k])
    case Bubble(_) => true
  }

  /** `m` forwards and `nb` backwards, each kind in increasing order, forward `i` before backward `i`. */
  ghost predicate InOrder(tasks: seq<Task>, m: nat, nb: nat) {
    && (forall k | 0 <= k < |tasks| :: InTurn(tasks, k))
    && Forwards(tasks) == m && Backwards(tasks) == nb
  }

  /** In such a list every forward occurs exactly once. */
  lemma {:induction false} ForwardOnce(tasks: seq<Task>, n: nat, i: nat) returns (k: nat)
    requires (forall k | 0 <= k < |tasks| :: InTurn(tasks, k)) && n <= |tasks| && i < Forwards(tasks[..n])
    ensures k < n && tasks[k] == Forward(i)
    ensures forall j | 0 <= j < n && tasks[j] == Forward(i) :: j == k
    decreases n
  {
    assert tasks[..n][..n - 1] == tasks[..n - 1];
    var last := tasks[n - 1];
    assert InTurn(tasks, n - 1);
    if last == Forward(i) {
      k := n - 1;
      forall j | 0 <= j < n - 1 ensures tasks[j] != Forward(i) {
        CountsGrow(tasks, j + 1, n - 1);
        assert tasks[..j + 1][..j] == tasks[..j];
        assert InTurn(tasks, j);
      }
    } else {
      k := ForwardOnce(tasks, n - 1, i);
    }
  }

  /** Every backward occurs exactly once too. */
  lemma {:induction false} BackwardOnce(tasks: seq<Task>, n: nat, i: nat) returns (k: nat)
    requires (forall k | 0 <= k < |tasks| :: InTurn(tasks, k)) && n <= |tasks| && i < Backwards(tasks[..n])
    ensures k < n && tasks[k] == Backward(i)
    ensures forall j | 0 <= j < n && tasks[j] == Backward(i) :: j == k
    decreases n
  {
    assert tasks[..n][..n - 1] == tasks[..n - 1];
    var last := tasks[n - 1];
    assert InTurn(tasks, n - 1);
    if last == Backward(i) {
      k := n - 1;
      forall j | 0 <= j < n - 1 ensures tasks[j] != Backward(i) {
        CountsGrow(tasks, j + 1, n - 1);
        assert tasks[..j + 1][..j] == tasks[..j];
        assert InTurn(tasks, j);
      }
    } else {
      k := BackwardOnce(tasks, n - 1, i);
    }
  }

  lemma {:induction false} CountsGrow(tasks: seq<Task>, a: nat, b: nat)
    requires a <= b <= |tasks|
    ensures Forwards(tasks[..a]) <= Forwards(tasks[..b])
    ensures Backwards(tasks[..a]) <= Backwards(tasks[..b])
  {
    if a < b {
      CountsGrow(tasks, a, b - 1);
      assert tasks[..b][..b - 1] == tasks[..b - 1];
    }
  }

  // ---------- 1F1B ----------

  function Warmup(stages: nat, m: nat, s: nat): nat
    requires s < stages
  {
    if m < stages - s - 1 then m else stages - s - 1
  }

  function Remaining(stages: nat, m: nat, s: nat): nat
    requires s < stages
  {
    m - Warmup(stages, m, s)
  }

  function FlushLength(stages: nat, m: nat, s: nat): nat
    requires s < stages
  {
    2 * m + if Remaining(stages, m, s) == 0 then 1 else 0
  }

  /** The `k`-th task of stage `s`. */
  function FlushTask(stages: nat, m: nat, s: nat, k: nat): Task
    requires s < stages && k < FlushLength(stages, m, s)
  {
    var w, r := Warmup(stages, m, s), Remaining(stages, m, s);
    if k < w then Forward(k)
    else if k < w + 2 * r then (if (k - w) % 2 == 0 then Forward(w + (k - w) / 2) else Backward((k - w) / 2))
    else if r > 0 then Backward(k - w - r)
    else if k == w then Bubble(0)
    else Backward(k - w - 1)
  }

  function FlushTasks(stages: nat, m: nat, s: nat): (tasks: seq<Task>)
    requires s < stages
    ensures |tasks| == FlushLength(stages, m, s)
    ensures forall k | 0 <= k < |tasks| :: tasks[k] == FlushTask(stages, m, s, k)
  {
    seq(FlushLength(stages, m, s), k requires 0 <= k < FlushLength(stages, m, s) => FlushTask(stages, m, s, k))
  }

  function ForwardTasks(m: nat): (tasks: seq<Task>)
    ensures |tasks| == m && forall k | 0 <= k < m :: tasks[k] == Forward(k)
  {
    seq(m, k requires 0 <= k < m => Forward(k))
  }

  lemma WarmTask(stages: nat, m: nat, s: nat, step: nat)
    requires s < stages && step < Warmup(stages, m, s)
    ensures var goal := FlushTasks(stages, m, s);
            step < |goal| && goal[..step + 1] == goal[..step] + [Forward(step)]
  {
  }

  lemma PairTasks(stages: nat, m: nat, s: nat, step: nat)
    requires s < stages && step < Remaining(stages, m, s)
    ensures var goal, k := FlushTasks(stages, m, s), Warmup(stages, m, s) + 2 * step;
            k + 2 <= |goal| && goal[..k + 2] == goal[..k] + [Forward(Warmup(stages, m, s) + step)] + [Backward(step)]
  {
    var goal, k := FlushTasks(stages, m, s), Warmup(stages, m, s) + 2 * step;
    assert goal[k] == Forward(Warmup(stages, m, s) + step);
    assert goal[k + 1] == Backward(step);
  }

  lemma BubbleTask(stages: nat, m: nat, s: nat)
    requires s < stages && Remaining(stages, m, s) == 0
    ensures var goal, w := FlushTasks(stages, m, s), Warmup(stages, m, s);
            w < |goal| && goal[..w + 1] == goal[..w] + [Bubble(0)]
  {
  }

  lemma CoolTask(stages: nat, m: nat, s: nat, step: nat)
    requires s < stages && step < Warmup(stages, m, s)
    ensures var goal := FlushTasks(stages, m, s);
            var k := |goal| - Warmup(stages, m, s) + step;
            0 <= k < |goal| && goal[..k + 1] == goal[..k] + [Backward(Remaining(stages, m, s) + step)]
  {
  }

  /** The three phases of one stage: warm-up forwards, forward-backward pairs, cool-down backwards. */
  method FlushStage(stages: nat, m: nat, s: nat) returns (tasks: seq<Task>)
    requires s < stages
    ensures tasks == FlushTasks(stages, m, s)
  {
    ghost var goal := FlushTasks(stages, m, s);
    var w := if m < stages - s - 1 then m else stages - s - 1;
    var r := m - w;
    assert w == Warmup(stages, m, s) && r == Remaining(stages, m, s);
    assert |goal| == w + 2 * r + w + if r == 0 then 1 else 0;
    hide FlushTask, FlushTasks, Warmup, Remaining;
    tasks := [];
    for step := 0 to w
      invariant tasks == goal[..step]
    {
      WarmTask(stages, m, s, step);
      tasks := tasks + [Forward(step)];
    }
    for step := 0 to r
      invariant tasks == goal[..w + 2 * step]
    {
      PairTasks(stages, m, s, step);
      tasks := tasks + [Forward(w + step)];
      tasks := tasks + [Backward(step)];
    }
    if r == 0 {
      BubbleTask(stages, m, s);
      tasks := tasks + [Bubble(r)];
    }
    for step := 0 to w
      invariant tasks == goal[..|goal| - w + step]
    {
      CoolTask(stages, m, s, step);
      tasks := tasks + [Backward(r + step)];
    }
  }

  method GeneratePipedreamFlushSchedule(stages: nat, m: nat, isInference: bool) returns (schedule: map<nat, seq<Task>>)
    ensures forall s: nat :: s in schedule <==> s < stages
    ensures forall s: nat | s < stages ::
              schedule[s] == if isInference then ForwardTasks(m) else FlushTasks(stages, m, s)
  {
    schedule := map[];
    for s := 0 to stages
      invariant forall t: nat :: t in schedule <==> t < s
      invariant forall t: nat | t < s ::
                  schedule[t] == if isInference then ForwardTasks(m) else FlushTasks(stages, m, t)
    {
      var tasks := [];
      if isInference {
        for step := 0 to m
          invariant tasks == ForwardTasks(m)[..step]
        {
          tasks := tasks + [Forward(step)];
        }
      } else {
        tasks := FlushStage(stages, m, s);
      }
      schedule := schedule[s := tasks];
    }
  }

  /** Closed forms of the running counts of a 1F1B stage. */
  function FlushForwards(stages: nat, m: nat, s: nat, k: nat): int
    requires s < stages
  {
    var w, r := Warmup(stages, m, s), Remaining(stages, m, s);
    if k <= w then k else if k <= w + 2 * r then w + (k - w + 1) / 2 else m
  }

  function FlushBackwards(stages: nat, m: nat, s: nat, k: nat): int
    requires s < stages
  {
    var w, r := Warmup(stages, m, s), Remaining(stages, m, s);
    if k <= w then 0 else if k <= w + 2 * r then (k - w) / 2 else if r > 0 then k - w - r else k - w - 1
  }

  lemma {:induction false} FlushCounts(stages: nat, m: nat, s: nat, k: nat)
    requires s < stages && k <= FlushLength(stages, m, s)
    ensures Forwards(FlushTasks(stages, m, s)[..k]) == FlushForwards(stages, m, s, k)
    ensures Backwards(FlushTasks(stages, m, s)[..k]) == FlushBackwards(stages, m, s, k)
  {
    var tasks := FlushTasks(stages, m, s);
    if k > 0 {
      FlushCounts(stages, m, s, k - 1);
      FlushCountNext(stages, m, s, k - 1);
      hide FlushForwards, FlushBackwards, FlushTask;
      assert tasks[..k][..k - 1] == tasks[..k - 1];
    }
  }

  lemma FlushCountNext(stages: nat, m: nat, s: nat, k: nat)
    requires s < stages && k < FlushLength(stages, m, s)
    ensures FlushForwards(stages, m, s, k + 1)
         == FlushForwards(stages, m, s, k) + if FlushTask(stages, m, s, k).Forward? then 1 else 0
    ensures FlushBackwards(stages, m, s, k + 1)
         == FlushBackwards(stages, m, s, k) + if FlushTask(stages, m, s, k).Backward? then 1 else 0
  {
  }

  /** Each 1F1B stage runs every forward and every backward once, in order, forwards first. */
  lemma FlushInOrder(stages: nat, m: nat, s: nat)
    requires s < stages
    ensures InOrder(FlushTasks(stages, m, s), m, m)
  {
    var tasks := FlushTasks(stages, m, s);
    forall k | 0 <= k < |tasks| ensures InTurn(tasks, k) {
      FlushCounts(stages, m, s, k);
    }
    FlushCounts(stages, m, s, |tasks|);
    assert tasks[..|tasks|] == tasks;
  }

  /**
   The memory bound: at every prefix the forwards not yet reversed number at most
   min(m, stages - s), and with a micro-batch to run the bound is reached.
   */
  lemma FlushInFlight(stages: nat, m: nat, s: nat)
    requires s < stages
    ensures var tasks, bound := FlushTasks(stages, m, s), if m < stages - s then m else stages - s;
            && (forall k | 0 <= k <= |tasks| :: 0 <= Forwards(tasks[..k]) - Backwards(tasks[..k]) <= bound)
            && bound <= |tasks| && Forwards(tasks[..bound]) - Backwards(tasks[..bound]) == bound
  {
    var tasks, bound := FlushTasks(stages, m, s), if m < stages - s then m else stages - s;
    forall k | 0 <= k <= |tasks| ensures 0 <= Forwards(tasks[..k]) - Backwards(tasks[..k]) <= bound {
      FlushCounts(stages, m, s, k);
    }
    FlushCounts(stages, m, s, bound);
  }

  /** Every stage ends with the backward of the last micro-batch, provided there is one. */
  lemma FlushEndsWithLastBackward(stages: nat, m: nat, s: nat)
    requires s < stages
    ensures |FlushTasks(stages, m, s)| > 0
    ensures FlushTasks(stages, m, s)[|FlushTasks(stages, m, s)| - 1] == (if m == 0 then Bubble(0) else Backward(m - 1))
  {
  }

  /** The stages that get a bubble are exactly those too far from the end to start a pair. */
  lemma BubbleIff(stages: nat, m: nat, s: nat)
    requires s < stages
    ensures (exists k :: 0 <= k < |FlushTasks(stages, m, s)| && FlushTasks(stages, m, s)[k].Bubble?) <==> m + s < stages
  {
    var tasks := FlushTasks(stages, m, s);
    if m + s < stages {
      assert tasks[m] == Bubble(0);
    }
  }

  // ---------- GPipe ----------

  function GpipeTasks(m: nat): (tasks: seq<Task>)
    ensures |tasks| == 2 * m
    ensures forall k | 0 <= k < 2 * m :: tasks[k] == if k < m then Forward(k) else Backward(k - m)
  {
    seq(2 * m, k requires 0 <= k < 2 * m => if k < m then Forward(k) else Backward(k - m))
  }

  method GenerateGpipeSchedule(stages: nat, m: nat, isInference: bool) returns (schedule: map<nat, seq<Task>>)
    ensures forall s: nat :: s in schedule <==> s < stages
    ensures forall s: nat | s < stages :: schedule[s] == if isInference then ForwardTasks(m) else GpipeTasks(m)
  {
    schedule := map[];
    for s := 0 to stages
      invariant forall t: nat :: t in schedule <==> t < s
      invariant forall t: nat | t < s :: schedule[t] == if isInference then ForwardTasks(m) else GpipeTasks(m)
    {
      var tasks := [];
      for step := 0 to m
        invariant |tasks| == step && forall k | 0 <= k < step :: tasks[k] == Forward(k)
      {
        tasks := tasks + [Forward(step)];
      }
      if !isInference {
        for step := 0 to m
          invariant tasks == GpipeTasks(m)[..m + step]
        {
          tasks := tasks + [Backward(step)];
        }
      }
      assert tasks == if isInference then ForwardTasks(m) else GpipeTasks(m);
      schedule := schedule[s := tasks];
    }
  }

  lemma {:induction false} GpipeCounts(m: nat, k: nat)
    requires k <= 2 * m
    ensures Forwards(GpipeTasks(m)[..k]) == if k <= m then k else m
    ensures Backwards(GpipeTasks(m)[..k]) == if k <= m then 0 else k - m
  {
    if k > 0 {
      GpipeCounts(m, k - 1);
      assert GpipeTasks(m)[..k][..k - 1] == GpipeTasks(m)[..k - 1];
    }
  }

  /** GPipe runs the same tasks in order, but holds all `m` forwards at once. */
  lemma GpipeInOrder(m: nat)
    ensures InOrder(GpipeTasks(m), m, m)
    ensures Forwards(GpipeTasks(m)[..m]) - Backwards(GpipeTasks(m)[..m]) == m
  {
    var tasks := GpipeTasks(m);
    forall k | 0 <= k < |tasks| ensures InTurn(tasks, k) {
      GpipeCounts(m, k);
    }
    GpipeCounts(m, |tasks|);
    GpipeCounts(m, m);
    assert tasks[..|tasks|] == tasks;
  }

  lemma {:induction false} ForwardCounts(m: nat, k: nat)
    requires k <= m
    ensures Forwards(ForwardTasks(m)[..k]) == k && Backwards(ForwardTasks(m)[..k]) == 0
  {
    if k > 0 {
      ForwardCounts(m, k - 1);
      assert ForwardTasks(m)[..k][..k - 1] == ForwardTasks(m)[..k - 1];
    }
  }

  lemma ForwardInOrder(m: nat)
    ensures InOrder(ForwardTasks(m), m, 0)
  {
    forall k | 0 <= k < m ensures InTurn(ForwardTasks(m), k) {
      ForwardCounts(m, k);
    }
    ForwardCounts(m, m);
    assert ForwardTasks(m)[..m] == ForwardTasks(m);
  }
}
