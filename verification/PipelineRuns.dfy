/** Runs of a pipeline whose stages exchange untagged messages over FIFO channels. */
module PipelineRuns {
  import opened PipelineSchedule

  type Plan = seq<seq<Task>>

  /**
   How far every stage is, and the messages waiting in front of it: `up[s]` holds activations
   from stage `s - 1`, `down[s]` holds gradients from stage `s + 1`.
   */
  datatype State = State(pc: seq<nat>, up: seq<seq<nat>>, down: seq<seq<nat>>)

  predicate Shaped(plan: Plan, st: State) {
    |st.pc| == |plan| && |st.up| == |plan| && |st.down| == |plan|
    && forall s | 0 <= s < |plan| :: st.pc[s] <= |plan[s]|
  }

  function Start(plan: Plan): State {
    State(seq(|plan|, s => 0), seq(|plan|, s => []), seq(|plan|, s => []))
  }

  /** The stage has a task left and the message that task receives has arrived. */
  predicate Enabled(plan: Plan, st: State, s: nat)
    requires Shaped(plan, st) && s < |plan|
  {
    st.pc[s] < |plan[s]| &&
    match plan[s][st.pc[s]]
    case Forward(_) => s == 0 || st.up[s] != []
    case Backward(_) => s == |plan| - 1 || st.down[s] != []
    case Bubble(_) => true
  }

  /** One task of stage `s`: take the oldest message if it receives, leave one if it sends. */
  function Step(plan: Plan, st: State, s: nat): (next: State)
    requires Shaped(plan, st) && s < |plan| && Enabled(plan, st, s)
    ensures Shaped(plan, next)
  {
    var pc := st.pc[s := st.pc[s] + 1];
    match plan[s][st.pc[s]]
    case Forward(i) =>
      var taken := if s == 0 then st.up else st.up[s := st.up[s][1..]];
      State(pc, if s + 1 < |plan| then taken[s + 1 := taken[s + 1] + [i]] else taken, st.down)
    case Backward(i) =>
      var taken := if s == |plan| - 1 then st.down else st.down[s := st.down[s][1..]];
      State(pc, st.up, if s > 0 then taken[s - 1 := taken[s - 1] + [i]] else taken)
    case Bubble(_) => State(pc, st.up, st.down)
  }

  /** The state after the stages in `choices` have stepped in turn; `None` if one of them was not enabled. */
  ghost predicate Reaches(plan: Plan, choices: seq<nat>, st: State) {
    if choices == [] then st == Start(plan) else
      exists was, s :: s == choices[|choices| - 1] && Reaches(plan, choices[..|choices| - 1], was)
        && Shaped(plan, was) && s < |plan| && Enabled(plan, was, s) && st == Step(plan, was, s)
  }

  lemma Previous(plan: Plan, choices: seq<nat>, st: State) returns (was: State)
    requires choices != [] && Reaches(plan, choices, st)
    ensures var s := choices[|choices| - 1];
            && Reaches(plan, choices[..|choices| - 1], was) && Shaped(plan, was)
            && s < |plan| && Enabled(plan, was, s) && st == Step(plan, was, s)
  {
    hide Enabled, Step;
    var w, s :| s == choices[|choices| - 1] && Reaches(plan, choices[..|choices| - 1], w)
      && Shaped(plan, w) && s < |plan| && Enabled(plan, w, s) && st == Step(plan, w, s);
    was := w;
  }

  lemma Extend(plan: Plan, choices: seq<nat>, was: State, s: nat)
    requires Reaches(plan, choices, was) && Shaped(plan, was) && s < |plan| && Enabled(plan, was, s)
    ensures Reaches(plan, choices + [s], Step(plan, was, s))
  {
    hide Enabled, Step;
    assert (choices + [s])[..|choices|] == choices;
  }

  // ---------- the invariant of every reachable state ----------

  function Range(a: nat, b: nat): (r: seq<nat>)
    requires a <= b
    ensures |r| == b - a && forall j | 0 <= j < |r| :: r[j] == a + j
  {
    seq(b - a, j requires 0 <= j < b - a => a + j)
  }

  /** The number of forwards stage `s` has done. */
  function Fw(plan: Plan, st: State, s: nat): nat
    requires Shaped(plan, st) && s < |plan|
  {
    Forwards(plan[s][..st.pc[s]])
  }

  function Bw(plan: Plan, st: State, s: nat): nat
    requires Shaped(plan, st) && s < |plan|
  {
    Backwards(plan[s][..st.pc[s]])
  }

  /** A channel holds exactly the micro-batches its sender has finished and its receiver has not. */
  ghost predicate ChannelsAt(plan: Plan, st: State, s: nat)
    requires Shaped(plan, st) && s < |plan|
  {
    UpAt(plan, st, s) && DownAt(plan, st, s)
  }

  ghost predicate UpAt(plan: Plan, st: State, s: nat)
    requires Shaped(plan, st) && s < |plan|
  {
    if s == 0 then st.up[s] == []
    else Fw(plan, st, s) <= Fw(plan, st, s - 1) && st.up[s] == Range(Fw(plan, st, s), Fw(plan, st, s - 1))
  }

  ghost predicate DownAt(plan: Plan, st: State, s: nat)
    requires Shaped(plan, st) && s < |plan|
  {
    if s == |plan| - 1 then st.down[s] == []
    else Bw(plan, st, s) <= Bw(plan, st, s + 1) && st.down[s] == Range(Bw(plan, st, s), Bw(plan, st, s + 1))
  }

  ghost predicate Inv(plan: Plan, st: State) {
    Shaped(plan, st) && forall s | 0 <= s < |plan| :: ChannelsAt(plan, st, s)
  }

  ghost predicate Turns(plan: Plan) {
    forall s, k | 0 <= s < |plan| && 0 <= k < |plan[s]| :: InTurn(plan[s], k)
  }

  lemma StartInv(plan: Plan)
    ensures Inv(plan, Start(plan))
  {
    forall s | 0 <= s < |plan| ensures Fw(plan, Start(plan), s) == 0 && Bw(plan, Start(plan), s) == 0 {
      assert plan[s][..0] == [];
    }
  }

  lemma StepCounts(plan: Plan, st: State, s: nat, t: nat)
    requires Shaped(plan, st) && s < |plan| && t < |plan| && Enabled(plan, st, s)
    ensures var next, task := Step(plan, st, s), plan[s][st.pc[s]];
            && Fw(plan, next, t) == Fw(plan, st, t) + (if t == s && task.Forward? then 1 else 0)
            && Bw(plan, next, t) == Bw(plan, st, t) + (if t == s && task.Backward? then 1 else 0)
  {
    var k := st.pc[s];
    assert plan[s][..k + 1][..k] == plan[s][..k];
  }

  lemma StepInv(plan: Plan, st: State, s: nat)
    requires Turns(plan) && Inv(plan, st) && s < |plan| && Enabled(plan, st, s)
    ensures Inv(plan, Step(plan, st, s))
  {
    hide Fw, Bw, Turns;
    forall t | 0 <= t < |plan| ensures ChannelsAt(plan, Step(plan, st, s), t) {
      StepChannels(plan, st, s, t);
    }
  }

  lemma StepChannels(plan: Plan, st: State, s: nat, t: nat)
    requires Turns(plan) && Inv(plan, st) && s < |plan| && t < |plan| && Enabled(plan, st, s)
    ensures ChannelsAt(plan, Step(plan, st, s), t)
  {
    assert ChannelsAt(plan, st, s) && ChannelsAt(plan, st, t);
    assert Shaped(plan, Step(plan, st, s));
    hide Fw, Bw, UpAt, DownAt, Enabled, Step, Turns, Shaped, Inv;
    StepUp(plan, st, s, t);
    StepDown(plan, st, s, t);
  }

  lemma StepUp(plan: Plan, st: State, s: nat, t: nat)
    requires Turns(plan) && Shaped(plan, st) && s < |plan| && t < |plan| && Enabled(plan, st, s)
    requires UpAt(plan, st, t)
    ensures UpAt(plan, Step(plan, st, s), t)
  {
    hide Fw, Bw, Turns;
    StepCounts(plan, st, s, t);
    if t > 0 { StepCounts(plan, st, s, t - 1); }
    NextId(plan, st, s);
  }

  lemma StepDown(plan: Plan, st: State, s: nat, t: nat)
    requires Turns(plan) && Shaped(plan, st) && s < |plan| && t < |plan| && Enabled(plan, st, s)
    requires DownAt(plan, st, t)
    ensures DownAt(plan, Step(plan, st, s), t)
  {
    hide Fw, Bw, Turns;
    StepCounts(plan, st, s, t);
    if t + 1 < |plan| { StepCounts(plan, st, s, t + 1); }
    NextId(plan, st, s);
  }

  /** The id of a stage's next task is the number of tasks of that kind it has done. */
  lemma NextId(plan: Plan, st: State, s: nat)
    requires Turns(plan) && Shaped(plan, st) && s < |plan| && st.pc[s] < |plan[s]|
    ensures match plan[s][st.pc[s]]
            case Forward(i) => i == Fw(plan, st, s)
            case Backward(i) => i == Bw(plan, st, s) && i < Fw(plan, st, s)
            case Bubble(_) => true
  {
    assert InTurn(plan[s], st.pc[s]);
  }

  lemma {:induction false} ReachableInv(plan: Plan, choices: seq<nat>, st: State)
    requires Turns(plan) && Reaches(plan, choices, st)
    ensures Inv(plan, st)
    decreases |choices|
  {
    if choices == [] {
      StartInv(plan);
    } else {
      var was := Previous(plan, choices, st);
      var s := choices[|choices| - 1];
      ReachableInv(plan, choices[..|choices| - 1], was);
      StepInv(plan, was, s);
    }
  }

  /**
   Pairing: in every reachable state, the message a task is about to receive is the one for
   its own micro-batch, although messages carry no tag.
   */
  lemma MessagesPairUp(plan: Plan, choices: seq<nat>, st: State, s: nat)
    requires Turns(plan) && Reaches(plan, choices, st) && s < |plan|
    ensures Shaped(plan, st)
    ensures Enabled(plan, st, s) ==>
              match plan[s][st.pc[s]]
              case Forward(i) => s > 0 ==> st.up[s][0] == i
              case Backward(i) => s < |plan| - 1 ==> st.down[s][0] == i
              case Bubble(_) => true
  {
    ReachableInv(plan, choices, st);
    assert ChannelsAt(plan, st, s);
    if Enabled(plan, st, s) {
      NextId(plan, st, s);
    }
  }

  // ---------- progress from a potential ----------

  /** A time slot per task that grows along every stage and along every message. */
  ghost predicate Potential(plan: Plan, m: nat, nb: nat, slot: (nat, Task) -> int) {
    && (forall s | 0 <= s < |plan| :: InOrder(plan[s], m, nb))
    && (forall s, j, k | 0 <= s < |plan| && 0 <= j < k < |plan[s]| :: slot(s, plan[s][j]) < slot(s, plan[s][k]))
    && (forall s: nat, i: nat | 0 < s < |plan| && i < m :: slot(s - 1, Forward(i)) < slot(s, Forward(i)))
    && (forall s: nat, i: nat | s + 1 < |plan| && i < nb :: slot(s + 1, Backward(i)) < slot(s, Backward(i)))
  }

  lemma PotentialTurns(plan: Plan, m: nat, nb: nat, slot: (nat, Task) -> int)
    requires Potential(plan, m, nb, slot)
    ensures Turns(plan)
  {
    forall s, k | 0 <= s < |plan| && 0 <= k < |plan[s]| ensures InTurn(plan[s], k) {
      assert InOrder(plan[s], m, nb);
    }
  }

  predicate Done(plan: Plan, st: State)
    requires Shaped(plan, st)
  {
    forall s | 0 <= s < |plan| :: st.pc[s] == |plan[s]|
  }

  /** Every task whose slot is below `t` has been done. */
  ghost predicate DoneBefore(plan: Plan, st: State, slot: (nat, Task) -> int, t: int)
    requires Shaped(plan, st)
  {
    forall s, k | 0 <= s < |plan| && 0 <= k < |plan[s]| && slot(s, plan[s][k]) < t :: k < st.pc[s]
  }

  /** A task done at place `k` is counted: if stage `s` is past forward `i`, it has done more than `i`. */
  lemma ForwardCounted(tasks: seq<Task>, m: nat, nb: nat, pc: nat, i: nat, k: nat)
    requires InOrder(tasks, m, nb) && k < pc <= |tasks| && tasks[k] == Forward(i)
    ensures i < Forwards(tasks[..pc])
  {
    assert InTurn(tasks, k);
    assert tasks[..k + 1][..k] == tasks[..k];
    CountsGrow(tasks, k + 1, pc);
  }

  lemma BackwardCounted(tasks: seq<Task>, m: nat, nb: nat, pc: nat, i: nat, k: nat)
    requires InOrder(tasks, m, nb) && k < pc <= |tasks| && tasks[k] == Backward(i)
    ensures i < Backwards(tasks[..pc])
  {
    assert InTurn(tasks, k);
    assert tasks[..k + 1][..k] == tasks[..k];
    CountsGrow(tasks, k + 1, pc);
  }

  /** A stage whose next task has the earliest slot still open is enabled. */
  lemma EarliestEnabled(plan: Plan, m: nat, nb: nat, slot: (nat, Task) -> int, st: State, s: nat)
    requires Potential(plan, m, nb, slot) && Inv(plan, st) && s < |plan| && st.pc[s] < |plan[s]|
    requires DoneBefore(plan, st, slot, slot(s, plan[s][st.pc[s]]))
    ensures Enabled(plan, st, s)
  {
    PotentialTurns(plan, m, nb, slot);
    NextId(plan, st, s);
    assert ChannelsAt(plan, st, s) && InOrder(plan[s], m, nb);
    TaskInRange(plan[s], m, nb, st.pc[s]);
    match plan[s][st.pc[s]]
    case Forward(i) =>
      if s > 0 { EarlierForward(plan, m, nb, slot, st, s - 1, i); }
    case Backward(i) =>
      if s + 1 < |plan| { EarlierBackward(plan, m, nb, slot, st, s + 1, i); }
    case Bubble(_) =>
  }

  lemma EarlierForward(plan: Plan, m: nat, nb: nat, slot: (nat, Task) -> int, st: State, s: nat, i: nat)
    requires Potential(plan, m, nb, slot) && Shaped(plan, st) && s + 1 < |plan| && i < m
    requires DoneBefore(plan, st, slot, slot(s + 1, Forward(i)))
    ensures i < Fw(plan, st, s)
  {
    assert InOrder(plan[s], m, nb) && slot((s + 1) - 1, Forward(i)) < slot(s + 1, Forward(i));
    assert plan[s][..|plan[s]|] == plan[s];
    var k := ForwardOnce(plan[s], |plan[s]|, i);
    ForwardCounted(plan[s], m, nb, st.pc[s], i, k);
  }

  lemma EarlierBackward(plan: Plan, m: nat, nb: nat, slot: (nat, Task) -> int, st: State, s: nat, i: nat)
    requires Potential(plan, m, nb, slot) && Shaped(plan, st) && 0 < s < |plan| && i < nb
    requires DoneBefore(plan, st, slot, slot(s - 1, Backward(i)))
    ensures i < Bw(plan, st, s)
  {
    var below := s - 1;
    assert InOrder(plan[s], m, nb) && slot(below + 1, Backward(i)) < slot(below, Backward(i));
    assert plan[s][..|plan[s]|] == plan[s];
    var k := BackwardOnce(plan[s], |plan[s]|, i);
    BackwardCounted(plan[s], m, nb, st.pc[s], i, k);
  }

  lemma TaskInRange(tasks: seq<Task>, m: nat, nb: nat, k: nat)
    requires InOrder(tasks, m, nb) && k < |tasks|
    ensures tasks[k].Forward? ==> tasks[k].batch < m
    ensures tasks[k].Backward? ==> tasks[k].batch < nb
  {
    assert InTurn(tasks, k);
    assert tasks[..k + 1][..k] == tasks[..k];
    CountsGrow(tasks, k + 1, |tasks|);
    assert tasks[..|tasks|] == tasks;
  }

  /** Among the unfinished stages, one whose next task has the earliest slot. */
  lemma {:induction false} EarliestStage(plan: Plan, slot: (nat, Task) -> int, st: State, n: nat) returns (s: nat)
    requires Shaped(plan, st) && n <= |plan| && exists t :: 0 <= t < n && st.pc[t] < |plan[t]|
    ensures s < n && st.pc[s] < |plan[s]|
    ensures forall t | 0 <= t < n && st.pc[t] < |plan[t]| ::
              slot(s, plan[s][st.pc[s]]) <= slot(t, plan[t][st.pc[t]])
  {
    if exists t :: 0 <= t < n - 1 && st.pc[t] < |plan[t]| {
      s := EarliestStage(plan, slot, st, n - 1);
      var k := n - 1;
      if st.pc[k] < |plan[k]| && slot(k, plan[k][st.pc[k]]) < slot(s, plan[s][st.pc[s]]) {
        s := k;
      }
    } else {
      s := n - 1;
    }
  }

  /** The tasks a stage has left come no earlier than its next one. */
  lemma SlotsOrdered(plan: Plan, m: nat, nb: nat, slot: (nat, Task) -> int, st: State, s: nat)
    requires Potential(plan, m, nb, slot) && Shaped(plan, st) && s < |plan|
    ensures forall k | st.pc[s] < k < |plan[s]| :: slot(s, plan[s][st.pc[s]]) < slot(s, plan[s][k])
  {
  }

  /** No deadlock: in every reachable state either everything is done or some stage can go on. */
  lemma NoDeadlock(plan: Plan, m: nat, nb: nat, slot: (nat, Task) -> int, choices: seq<nat>, st: State)
    requires Potential(plan, m, nb, slot) && Reaches(plan, choices, st)
    ensures Shaped(plan, st) && (Done(plan, st) || exists s: nat :: s < |plan| && Enabled(plan, st, s))
  {
    PotentialTurns(plan, m, nb, slot);
    ReachableInv(plan, choices, st);
    if !Done(plan, st) {
      var s := EarliestStage(plan, slot, st, |plan|);
      forall t, k | 0 <= t < |plan| && 0 <= k < |plan[t]| && slot(t, plan[t][k]) < slot(s, plan[s][st.pc[s]])
        ensures k < st.pc[t]
      {
        SlotsOrdered(plan, m, nb, slot, st, t);
      }
      EarliestEnabled(plan, m, nb, slot, st, s);
    }
  }

  // ---------- unit-time rounds ----------

  /** One round: every stage that can go on at its beginning does one task. */
  ghost function Round(plan: Plan, st: State, n: nat): (next: State)
    requires Turns(plan) && Inv(plan, st) && n <= |plan|
    ensures Inv(plan, next)
    ensures forall s | 0 <= s < |plan| ::
              next.pc[s] == st.pc[s] + if s < n && Enabled(plan, st, s) then 1 else 0
  {
    if n == 0 then st else
      var cur := Round(plan, st, n - 1);
      if Enabled(plan, st, n - 1) then
        StaysEnabled(plan, st, cur, n - 1);
        StepInv(plan, cur, n - 1);
        Step(plan, cur, n - 1)
      else cur
  }

  lemma StaysEnabled(plan: Plan, st: State, cur: State, s: nat)
    requires Turns(plan) && Inv(plan, st) && Inv(plan, cur) && s < |plan| && Enabled(plan, st, s)
    requires cur.pc[s] == st.pc[s] && forall t | 0 <= t < |plan| :: st.pc[t] <= cur.pc[t]
    ensures Enabled(plan, cur, s)
  {
    assert ChannelsAt(plan, st, s) && ChannelsAt(plan, cur, s);
    if s > 0 { CountsGrow(plan[s - 1], st.pc[s - 1], cur.pc[s - 1]); }
    if s + 1 < |plan| { CountsGrow(plan[s + 1], st.pc[s + 1], cur.pc[s + 1]); }
  }

  ghost function Rounds(plan: Plan, t: nat): (st: State)
    requires Turns(plan)
    ensures Inv(plan, st)
  {
    if t == 0 then StartInv(plan); Start(plan) else Round(plan, Rounds(plan, t - 1), |plan|)
  }

  lemma RoundsReach(plan: Plan, t: nat) returns (choices: seq<nat>)
    requires Turns(plan)
    ensures Reaches(plan, choices, Rounds(plan, t))
  {
    if t == 0 {
      choices := [];
    } else {
      choices := RoundsReach(plan, t - 1);
      choices := RoundReaches(plan, choices, Rounds(plan, t - 1), |plan|);
    }
  }

  lemma RoundReaches(plan: Plan, before: seq<nat>, st: State, n: nat) returns (choices: seq<nat>)
    requires Turns(plan) && Inv(plan, st) && n <= |plan| && Reaches(plan, before, st)
    ensures Reaches(plan, choices, Round(plan, st, n))
  {
    hide Step, Reaches, ChannelsAt, Turns, Enabled;
    choices := before;
    if n > 0 {
      choices := RoundReaches(plan, before, st, n - 1);
      var cur := Round(plan, st, n - 1);
      if Enabled(plan, st, n - 1) {
        StaysEnabled(plan, st, cur, n - 1);
        Extend(plan, choices, cur, n - 1);
        choices := choices + [n - 1];
      }
    }
  }

  /** After `t` rounds every task with a slot below `t` is done. */
  lemma {:induction false} RoundsDone(plan: Plan, m: nat, nb: nat, slot: (nat, Task) -> int, t: nat)
    requires Potential(plan, m, nb, slot) && Turns(plan)
    requires forall s, k | 0 <= s < |plan| && 0 <= k < |plan[s]| :: slot(s, plan[s][k]) >= 0
    ensures DoneBefore(plan, Rounds(plan, t), slot, t)
  {
    if t > 0 {
      RoundsDone(plan, m, nb, slot, t - 1);
      var st := Rounds(plan, t - 1);
      var next := Round(plan, st, |plan|);
      forall s, k | 0 <= s < |plan| && 0 <= k < |plan[s]| && slot(s, plan[s][k]) < t ensures k < next.pc[s] {
        SlotsOrdered(plan, m, nb, slot, st, s);
        if k == st.pc[s] {
          EarliestEnabled(plan, m, nb, slot, st, s);
        }
      }
    }
  }

  /** With every slot below `t`, the whole pipeline finishes within `t` unit-time rounds. */
  lemma FinishesWithin(plan: Plan, m: nat, nb: nat, slot: (nat, Task) -> int, t: nat)
    requires Potential(plan, m, nb, slot) && Turns(plan)
    requires forall s, k | 0 <= s < |plan| && 0 <= k < |plan[s]| :: 0 <= slot(s, plan[s][k]) < t
    ensures Done(plan, Rounds(plan, t))
  {
    RoundsDone(plan, m, nb, slot, t);
    var st := Rounds(plan, t);
    forall s | 0 <= s < |plan| ensures st.pc[s] == |plan[s]| {
      if |plan[s]| > 0 {
        var last := |plan[s]| - 1;
        assert slot(s, plan[s][last]) < t;
      }
    }
  }

  // ---------- the schedules of the runtime ----------

  function FlushPlan(stages: nat, m: nat): (plan: Plan)
    ensures |plan| == stages && forall s | 0 <= s < stages :: plan[s] == FlushTasks(stages, m, s)
  {
    seq(stages, s requires 0 <= s < stages => FlushTasks(stages, m, s))
  }

  function FlushSlot(stages: nat): (nat, Task) -> int {
    (s: nat, task: Task) =>
      match task
      case Forward(i) => s + 2 * i
      case Backward(i) => 2 * stages - 1 - s + 2 * i
      case Bubble(_) => 2 * stages - 2 - s
  }

  lemma FlushSlotsGrow(stages: nat, m: nat, s: nat, j: nat, k: nat)
    requires s < stages && j < k < FlushLength(stages, m, s)
    ensures FlushSlot(stages)(s, FlushTask(stages, m, s, j)) < FlushSlot(stages)(s, FlushTask(stages, m, s, k))
  {
    hide FlushTask, FlushSlot;
    if j + 1 < k {
      FlushSlotsGrow(stages, m, s, j, k - 1);
    }
    FlushSlotNext(stages, m, s, k - 1);
  }

  lemma FlushSlotNext(stages: nat, m: nat, s: nat, k: nat)
    requires s < stages && k + 1 < FlushLength(stages, m, s)
    ensures FlushSlot(stages)(s, FlushTask(stages, m, s, k)) < FlushSlot(stages)(s, FlushTask(stages, m, s, k + 1))
  {
  }

  lemma FlushPotential(stages: nat, m: nat)
    ensures Potential(FlushPlan(stages, m), m, m, FlushSlot(stages)) && Turns(FlushPlan(stages, m))
  {
    var plan, slot := FlushPlan(stages, m), FlushSlot(stages);
    forall s | 0 <= s < |plan| ensures InOrder(plan[s], m, m) {
      FlushInOrder(stages, m, s);
    }
    forall s, j, k | 0 <= s < |plan| && 0 <= j < k < |plan[s]| ensures slot(s, plan[s][j]) < slot(s, plan[s][k]) {
      FlushSlotsGrow(stages, m, s, j, k);
    }
    PotentialTurns(plan, m, m, slot);
  }

  /** 1F1B never deadlocks, for every number of stages and micro-batches. */
  lemma FlushNeverDeadlocks(stages: nat, m: nat, choices: seq<nat>, st: State)
    requires Reaches(FlushPlan(stages, m), choices, st)
    ensures var plan := FlushPlan(stages, m);
            Shaped(plan, st) && (Done(plan, st) || exists s: nat :: s < |plan| && Enabled(plan, st, s))
  {
    FlushPotential(stages, m);
    NoDeadlock(FlushPlan(stages, m), m, m, FlushSlot(stages), choices, st);
  }

  /** With unit-time tasks 1F1B finishes within 2(m + stages - 1) rounds. */
  lemma FlushFinishesInTime(stages: nat, m: nat)
    requires stages >= 1 && m >= 1
    ensures var plan := FlushPlan(stages, m);
            Turns(plan) && Done(plan, Rounds(plan, 2 * (m + stages - 1)))
  {
    FlushPotential(stages, m);
    var plan, slot := FlushPlan(stages, m), FlushSlot(stages);
    forall s, k | 0 <= s < |plan| && 0 <= k < |plan[s]| ensures 0 <= slot(s, plan[s][k]) < 2 * (m + stages - 1) {
      FlushSlotBound(stages, m, s, k);
    }
    FinishesWithin(plan, m, m, slot, 2 * (m + stages - 1));
  }

  lemma FlushSlotBound(stages: nat, m: nat, s: nat, k: nat)
    requires s < stages && m >= 1 && k < FlushLength(stages, m, s)
    ensures 0 <= FlushSlot(stages)(s, FlushTask(stages, m, s, k)) < 2 * (m + stages - 1)
  {
  }

  // ---------- runs have a fixed length ----------

  function Sum(xs: seq<nat>): nat {
    if xs == [] then 0 else Sum(xs[..|xs| - 1]) + xs[|xs| - 1]
  }

  lemma {:induction false} SumBump(xs: seq<nat>, s: nat)
    requires s < |xs|
    ensures Sum(xs[s := xs[s] + 1]) == Sum(xs) + 1
  {
    var n, ys := |xs| - 1, xs[s := xs[s] + 1];
    if s == n {
      assert ys[..n] == xs[..n];
    } else {
      SumBump(xs[..n], s);
      assert ys[..n] == xs[..n][s := xs[s] + 1];
    }
  }

  lemma {:induction false} SumZero(n: nat)
    ensures Sum(seq(n, s => 0)) == 0
  {
    if n > 0 {
      SumZero(n - 1);
      assert seq(n, s => 0)[..n - 1] == seq(n - 1, s => 0);
    }
  }

  /**
   Every run does one task per step. So every run that cannot go on has done exactly all the
   tasks of the plan, whatever order the stages moved in.
   */
  lemma {:induction false} StepsDone(plan: Plan, choices: seq<nat>, st: State)
    requires Reaches(plan, choices, st)
    ensures Shaped(plan, st) && |choices| == Sum(st.pc)
    decreases |choices|
  {
    hide *;
    if choices == [] {
      NoSteps(plan, st);
    } else {
      var was := Previous(plan, choices, st);
      var s := choices[|choices| - 1];
      StepsDone(plan, choices[..|choices| - 1], was);
      StepPc(plan, was, s);
      SumBump(was.pc, s);
    }
  }

  lemma NoSteps(plan: Plan, st: State)
    requires Reaches(plan, [], st)
    ensures Shaped(plan, st) && Sum(st.pc) == 0
  {
    SumZero(|plan|);
  }

  lemma StepPc(plan: Plan, st: State, s: nat)
    requires Shaped(plan, st) && s < |plan| && Enabled(plan, st, s)
    ensures s < |st.pc| && Step(plan, st, s).pc == st.pc[s := st.pc[s] + 1]
  {
  }

  function Lengths(plan: Plan): (ns: seq<nat>)
    ensures |ns| == |plan| && forall s | 0 <= s < |plan| :: ns[s] == |plan[s]|
  {
    seq(|plan|, s requires 0 <= s < |plan| => |plan[s]|)
  }

  lemma StuckRunsAreComplete(plan: Plan, m: nat, nb: nat, slot: (nat, Task) -> int, choices: seq<nat>, st: State)
    requires Potential(plan, m, nb, slot) && Reaches(plan, choices, st) && Shaped(plan, st)
    requires forall s: nat | s < |plan| :: !Enabled(plan, st, s)
    ensures Done(plan, st) && |choices| == Sum(Lengths(plan))
  {
    NoDeadlock(plan, m, nb, slot, choices, st);
    StepsDone(plan, choices, st);
    assert st.pc == Lengths(plan);
  }

  // ---------- GPipe and inference ----------

  function GpipePlan(stages: nat, m: nat): (plan: Plan)
    ensures |plan| == stages && forall s | 0 <= s < stages :: plan[s] == GpipeTasks(m)
  {
    seq(stages, s => GpipeTasks(m))
  }

  function GpipeSlot(stages: nat, m: nat): (nat, Task) -> int {
    (s: nat, task: Task) =>
      match task
      case Forward(i) => s + i
      case Backward(i) => m + 2 * stages - 2 - s + i
      case Bubble(_) => 0
  }

  lemma GpipePotential(stages: nat, m: nat)
    ensures Potential(GpipePlan(stages, m), m, m, GpipeSlot(stages, m)) && Turns(GpipePlan(stages, m))
  {
    GpipeInOrder(m);
    hide InOrder;
    PotentialTurns(GpipePlan(stages, m), m, m, GpipeSlot(stages, m));
  }

  lemma InferencePotential(stages: nat, m: nat)
    ensures Potential(InferencePlan(stages, m), m, 0, GpipeSlot(stages, m)) && Turns(InferencePlan(stages, m))
  {
    ForwardInOrder(m);
    hide InOrder;
    PotentialTurns(InferencePlan(stages, m), m, 0, GpipeSlot(stages, m));
  }

  /** GPipe is just as live and just as fast; only its memory differs. */
  lemma GpipeLiveAndInTime(stages: nat, m: nat, choices: seq<nat>, st: State)
    requires stages >= 1 && Reaches(GpipePlan(stages, m), choices, st)
    ensures var plan := GpipePlan(stages, m);
            && Shaped(plan, st) && (Done(plan, st) || exists s: nat :: s < |plan| && Enabled(plan, st, s))
            && Turns(plan) && Done(plan, Rounds(plan, 2 * (m + stages - 1)))
  {
    var plan, slot := GpipePlan(stages, m), GpipeSlot(stages, m);
    GpipePotential(stages, m);
    hide Potential, Reaches, Turns, Done, Enabled, InOrder;
    NoDeadlock(plan, m, m, slot, choices, st);
    FinishesWithin(plan, m, m, slot, 2 * (m + stages - 1));
  }

  function InferencePlan(stages: nat, m: nat): (plan: Plan)
    ensures |plan| == stages && forall s | 0 <= s < stages :: plan[s] == ForwardTasks(m)
  {
    seq(stages, s => ForwardTasks(m))
  }

  /** Forward-only runs finish within m + stages - 1 rounds. */
  lemma InferenceLiveAndInTime(stages: nat, m: nat, choices: seq<nat>, st: State)
    requires stages >= 1 && Reaches(InferencePlan(stages, m), choices, st)
    ensures var plan := InferencePlan(stages, m);
            && Shaped(plan, st) && (Done(plan, st) || exists s: nat :: s < |plan| && Enabled(plan, st, s))
            && Turns(plan) && Done(plan, Rounds(plan, m + stages - 1))
  {
    var plan, slot := InferencePlan(stages, m), GpipeSlot(stages, m);
    InferencePotential(stages, m);
    hide Potential, Reaches, Turns, Done, Enabled, InOrder;
    NoDeadlock(plan, m, 0, slot, choices, st);
    FinishesWithin(plan, m, 0, slot, m + stages - 1);
  }
}
