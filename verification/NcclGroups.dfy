/**
 Nested NCCL groups with deferred frees, and the brackets the executor puts around runs of
 pipeline sends and receives.
 */
module NcclGroups {
  import opened Collections
  import opened PipelineSchedule

  type DataPtr = nat

  /**
   The process-wide nesting depth and the list of pointers whose release waits for the end of
   a group. `freed` is what the memory pool has been given back, in order.
   */
  class NcclGroup {
    var wrapNum: nat
    var context: Option<seq<DataPtr>>
    var freed: seq<DataPtr>
    ghost var destroyed: seq<DataPtr>

    function Pending(): seq<DataPtr>
      reads this
    {
      if context.Some? then context.value else []
    }

    /** Every destroyed pointer has been freed once or is waiting, in order; nothing waits outside a group. */
    ghost predicate Valid()
      reads this
    {
      (wrapNum > 0 <==> context.Some?) && destroyed == freed + Pending()
    }

    constructor ()
      ensures Valid() && wrapNum == 0 && freed == [] && destroyed == []
    {
      wrapNum, context, freed, destroyed := 0, None, [], [];
    }

    method Start()
      requires Valid()
      modifies this
      ensures Valid() && wrapNum == old(wrapNum) + 1
      ensures freed == old(freed) && destroyed == old(destroyed) && Pending() == old(Pending())
    {
      wrapNum := wrapNum + 1;
      if wrapNum >= 2 {
        assert context.Some?;
        return;
      }
      context := Some([]);
    }

    /** Flushes the waiting pointers at every end, also of an inner group; an error without an open group. */
    method End() returns (ok: bool)
      requires Valid()
      modifies this
      ensures ok <==> old(wrapNum) >= 1
      ensures Valid() && destroyed == old(destroyed)
      ensures ok ==> wrapNum == old(wrapNum) - 1 && freed == old(freed + Pending()) && Pending() == []
      ensures !ok ==> wrapNum == old(wrapNum) && freed == old(freed)
    {
      if wrapNum < 1 {
        return false;
      }
      wrapNum := wrapNum - 1;
      FreeAll();
      if wrapNum == 0 {
        context := None;
      }
      return true;
    }

    /** Gives the waiting pointers back one by one and forgets them. */
    method FreeAll()
      requires context.Some?
      modifies this`freed, this`context
      ensures freed == old(freed + Pending()) && context == Some([])
    {
      var list := context.value;
      for i := 0 to |list|
        invariant freed == old(freed) + list[..i] && context == old(context)
      {
        freed := freed + [list[i]];
      }
      context := Some([]);
    }

    /** The destructor of an array storage: released now, or at the end of the group that is open. */
    method Destroy(ptr: DataPtr, inMempool: bool)
      requires Valid()
      modifies this
      ensures Valid() && wrapNum == old(wrapNum)
      ensures destroyed == old(destroyed) + (if inMempool then [ptr] else [])
      ensures old(wrapNum) == 0 ==> freed == destroyed
      ensures old(wrapNum) > 0 ==> freed == old(freed) && Pending() == old(Pending()) + if inMempool then [ptr] else []
    {
      if inMempool {
        destroyed := destroyed + [ptr];
        if context.Some? {
          context := Some(context.value + [ptr]);
        } else {
          freed := freed + [ptr];
        }
      }
    }
  }

  // ---------- the executor's brackets ----------

  /**
   An operation as the brackets see it: pipeline send or receive or not, grouping its own transfers or
   not, and the storages it drops.
   */
  datatype Act = Act(isP2P: bool, groups: bool, drops: seq<DataPtr>)

  datatype Mark = GroupBegan | GroupEnded

  /** Whether the last operation of the first `n` passes was a pipeline send or receive. */
  function EndsInP2P(passes: seq<seq<Act>>, n: nat): bool
    requires n <= |passes|
  {
    if n == 0 then false
    else if passes[n - 1] != [] then passes[n - 1][|passes[n - 1]| - 1].isP2P
    else EndsInP2P(passes, n - 1)
  }

  ghost predicate Alternating(events: seq<Mark>) {
    forall i | 0 <= i < |events| :: events[i] == if i % 2 == 0 then GroupBegan else GroupEnded
  }

  class P2PBrackets {
    const group: NcclGroup
    var isContinuous: bool
    var events: seq<Mark>

    /** A group is open exactly while consecutive sends and receives run; events alternate. */
    ghost predicate Valid()
      reads this, group
    {
      && group.Valid() && group.wrapNum == (if isContinuous then 1 else 0)
      && Alternating(events) && |events| % 2 == (if isContinuous then 1 else 0)
    }

    constructor (group: NcclGroup)
      requires group.Valid() && group.wrapNum == 0
      ensures Valid() && this.group == group && !isContinuous && events == []
    {
      this.group, isContinuous, events := group, false, [];
    }

    /** Opens or closes the bracket before an operation runs. */
    method BeforeOp(isP2P: bool)
      requires Valid()
      modifies this, group
      ensures Valid() && isContinuous == isP2P && group.destroyed == old(group.destroyed)
      ensures isP2P == old(isContinuous) ==>
                events == old(events) && group.freed == old(group.freed) && group.Pending() == old(group.Pending())
      ensures isP2P && !old(isContinuous) ==>
                events == old(events) + [GroupBegan] && group.freed == old(group.freed) && group.Pending() == []
      ensures !isP2P && old(isContinuous) ==>
                events == old(events) + [GroupEnded] && group.freed == group.destroyed
    {
      if isP2P {
        if !isContinuous {
          isContinuous := true;
          events := events + [GroupBegan];
          group.Start();
        }
      } else if isContinuous {
        isContinuous := false;
        var ok := group.End();
        events := events + [GroupEnded];
      }
    }

    /** One operation: the bracket, its own group if it batches transfers, and the storages it drops. */
    method RunAct(act: Act)
      requires Valid()
      modifies this, group
      ensures Valid() && isContinuous == act.isP2P
      ensures group.destroyed == old(group.destroyed) + act.drops
      ensures events == if act.isP2P == old(isContinuous) then old(events)
                        else old(events) + [if act.isP2P then GroupBegan else GroupEnded]
    {
      BeforeOp(act.isP2P);
      if act.groups {
        group.Start();
      }
      ghost var before, marks := group.destroyed, events;
      for i := 0 to |act.drops|
        invariant events == marks
        invariant Valid() || act.groups
        invariant group.Valid() && Alternating(events) && |events| % 2 == (if isContinuous then 1 else 0)
        invariant isContinuous == act.isP2P
        invariant group.wrapNum == (if isContinuous then 1 else 0) + (if act.groups then 1 else 0)
        invariant group.destroyed == before + act.drops[..i]
      {
        group.Destroy(act.drops[i], true);
      }
      if act.groups {
        var ok := group.End();
      }
    }

    /** A bubble closes the open group and opens another; an error when none is open. */
    method Bubble() returns (ok: bool)
      requires Valid()
      modifies group
      ensures ok <==> isContinuous
      ensures Valid() && group.destroyed == old(group.destroyed)
      ensures ok ==> group.Pending() == []
    {
      ok := group.End();
      if ok {
        group.Start();
      }
    }

    /** Closes the bracket after the last task. */
    method Finish()
      requires Valid()
      modifies this, group
      ensures Valid() && !isContinuous && group.destroyed == old(group.destroyed)
      ensures group.wrapNum == 0 && |events| % 2 == 0 && Alternating(events) && group.freed == group.destroyed
    {
      if isContinuous {
        isContinuous := false;
        var ok := group.End();
        events := events + [GroupEnded];
      }
    }

    /** The operations of one task. */
    method RunPass(pass: seq<Act>)
      requires Valid()
      modifies this, group
      ensures Valid() && isContinuous == if pass == [] then old(isContinuous) else pass[|pass| - 1].isP2P
      ensures group.destroyed == old(group.destroyed) + Drops(pass)
    {
      for i := 0 to |pass|
        invariant Valid() && isContinuous == if i == 0 then old(isContinuous) else pass[i - 1].isP2P
        invariant group.destroyed == old(group.destroyed) + Drops(pass[..i])
      {
        assert pass[..i + 1][..i] == pass[..i];
        RunAct(pass[i]);
      }
      assert pass[..|pass|] == pass;
    }

    /**
     The whole task list. It fails exactly when some bubble finds no open group. Otherwise the
     group calls balance, the recorded events alternate and are even in number, and every
     storage dropped on the way has been freed exactly once, in order.
     */
    method RunStage(tasks: seq<Task>, passes: seq<seq<Act>>) returns (ok: bool)
      requires Valid() && !isContinuous && |passes| == |tasks|
      requires forall j | 0 <= j < |tasks| && tasks[j].Bubble? :: passes[j] == []
      modifies this, group
      ensures ok <==> forall j | 0 <= j < |tasks| && tasks[j].Bubble? :: EndsInP2P(passes, j)
      ensures ok ==> Valid() && group.wrapNum == 0 && |events| % 2 == 0 && Alternating(events)
      ensures ok ==> group.freed == group.destroyed == old(group.destroyed) + AllDrops(passes)
    {
      hide *;
      NoPass(passes);
      for i := 0 to |tasks|
        invariant Valid() && isContinuous == EndsInP2P(passes, i)
        invariant forall j | 0 <= j < i && tasks[j].Bubble? :: EndsInP2P(passes, j)
        invariant group.destroyed == old(group.destroyed) + AllDrops(passes[..i])
      {
        NextPass(passes, i);
        if tasks[i].Bubble? {
          ok := Bubble();
          if !ok {
            return;
          }
        } else {
          RunPass(passes[i]);
        }
      }
      assert passes[..|passes|] == passes;
      Finish();
      ok := true;
    }
  }

  function Drops(pass: seq<Act>): seq<DataPtr> {
    if pass == [] then [] else Drops(pass[..|pass| - 1]) + pass[|pass| - 1].drops
  }

  function AllDrops(passes: seq<seq<Act>>): seq<DataPtr> {
    if passes == [] then [] else AllDrops(passes[..|passes| - 1]) + Drops(passes[|passes| - 1])
  }

  lemma NoPass(passes: seq<seq<Act>>)
    ensures AllDrops(passes[..0]) == [] && !EndsInP2P(passes, 0)
  {
  }

  lemma NextPass(passes: seq<seq<Act>>, i: nat)
    requires i < |passes|
    ensures AllDrops(passes[..i + 1]) == AllDrops(passes[..i]) + Drops(passes[i])
    ensures passes[i] == [] ==> AllDrops(passes[..i + 1]) == AllDrops(passes[..i])
    ensures EndsInP2P(passes, i + 1)
         == if passes[i] == [] then EndsInP2P(passes, i) else passes[i][|passes[i]| - 1].isP2P
  {
    assert passes[..i + 1][..i] == passes[..i];
  }

  // ---------- when the bubble finds an open group ----------

  /** The passes fit a task list in which every forward runs the same kinds of operations. */
  ghost predicate PassesFit(tasks: seq<Task>, passes: seq<seq<Act>>, fwEndsInSend: bool) {
    && |passes| == |tasks|
    && (forall j | 0 <= j < |tasks| && tasks[j].Bubble? :: passes[j] == [])
    && (forall j | 0 <= j < |tasks| && tasks[j].Forward? ::
          if fwEndsInSend then passes[j] != [] && passes[j][|passes[j]| - 1].isP2P
          else passes[j] == [] || !passes[j][|passes[j]| - 1].isP2P)
  }

  /**
   On a 1F1B stage the brackets never fail if and only if the stage has no bubble, or there is
   a micro-batch and each forward pass ends with a send.
   */
  lemma BubbleFindsGroupIff(stages: nat, m: nat, s: nat, passes: seq<seq<Act>>, fwEndsInSend: bool)
    requires s < stages && PassesFit(FlushTasks(stages, m, s), passes, fwEndsInSend)
    ensures var tasks := FlushTasks(stages, m, s);
            (forall j | 0 <= j < |tasks| && tasks[j].Bubble? :: EndsInP2P(passes, j))
            <==> m + s >= stages || (m >= 1 && fwEndsInSend)
  {
    var tasks := FlushTasks(stages, m, s);
    if m + s < stages {
      assert tasks[m] == Bubble(0);
      WarmupEnds(stages, m, s, passes, fwEndsInSend, m);
    }
  }

  lemma {:induction false} WarmupEnds(stages: nat, m: nat, s: nat, passes: seq<seq<Act>>, fwEndsInSend: bool, n: nat)
    requires s < stages && m + s < stages && n <= m && PassesFit(FlushTasks(stages, m, s), passes, fwEndsInSend)
    ensures EndsInP2P(passes, n) <==> n >= 1 && fwEndsInSend
  {
    if n > 0 {
      WarmupEnds(stages, m, s, passes, fwEndsInSend, n - 1);
      assert FlushTasks(stages, m, s)[n - 1] == Forward(n - 1);
    }
  }

  /** One micro-batch on the first of two stages, with a forward that ends without a send: the bubble fails. */
  lemma BubbleWithoutGroup(passes: seq<seq<Act>>)
    requires passes == [[Act(false, false, [])], [], []]
    ensures var tasks := FlushTasks(2, 1, 0);
            && PassesFit(tasks, passes, false)
            && exists j :: 0 <= j < |tasks| && tasks[j].Bubble? && !EndsInP2P(passes, j)
  {
    var tasks := FlushTasks(2, 1, 0);
    assert tasks == [Forward(0), Bubble(0), Backward(0)];
    BubbleFindsGroupIff(2, 1, 0, passes, false);
  }
}
