/** The scheduler as a whole: the policy chosen at creation decides what `schedule` and
    the preemption check do, and the shared operations (terminate, block, unblock, sleep,
    tick) call into it. The `Scheduler` class holds the state and changes it in place. */
module Scheduling {
  import opened Common
  import opened RegisterFile
  import opened SchedulerBase
  import opened PriorityScheduler
  import opened RoundRobinScheduler
  import opened FcfsScheduler

  /** Which of the three scheduler classes is in use; round-robin carries its time slice. */
  datatype Policy = Priority | RoundRobin(timeSlice: int) | Fcfs

  /** `schedule()`, dispatched on the policy. Whatever the policy, the task returned is
      the current task afterwards. */
  function ScheduleOf(s: SchedState, p: Policy): (r: (SchedState, Option<nat>))
    requires Wf(s)
    ensures Wf(r.0) && r.0.current == r.1
    ensures r.0.tickCount == s.tickCount && |r.0.tasks| == |s.tasks| && r.0.nextTaskId == s.nextTaskId
  {
    match p
    case Priority =>
      PriorityScheduleRunsSelected(s);
      PriorityScheduleOf(s)
    case RoundRobin(_) =>
      RoundRobinScheduleRunsSelected(s);
      RoundRobinScheduleOf(s)
    case Fcfs => FcfsScheduleOf(s)
  }

  /** `_check_preemption()`: only the priority policy ever preempts. */
  function PreemptOf(s: SchedState, p: Policy): (r: SchedState)
    requires Wf(s)
    ensures Wf(r) && r.tickCount == s.tickCount && |r.tasks| == |s.tasks|
  {
    match p
    case Priority => PriorityPreemptOf(s)
    case _ => s
  }

  /** `tick()`: the shared part (clock, wake-ups, aging when enabled), the preemption
      check, and for round-robin the time-slice accounting. */
  function TickOf(s: SchedState, p: Policy, agingEnabled: bool): (r: SchedState)
    requires Wf(s)
    ensures Wf(r) && r.tickCount == s.tickCount + 1 && |r.tasks| == |s.tasks|
  {
    var s1 := PreemptOf(BaseTickOf(s, agingEnabled), p);
    match p
    case RoundRobin(timeSlice) => RoundRobinSliceOf(s1, timeSlice)
    case _ => s1
  }

  /** Stores a task's new, non-RUNNING record; if it was the current task there is no
      current task any more. */
  function StoreAsideOf(s: SchedState, id: nat, t: Task): (r: SchedState)
    requires Wf(s) && HasTask(s, id)
    requires t.id == id && t.state != Running && PrioritySane(t)
    ensures Wf(r) && r.tasks == s.tasks[id - 1 := t]
    ensures r.current == if s.current == Some(id) then None else s.current
  {
    var s1 := s.(tasks := s.tasks[id - 1 := t]);
    if s.current == Some(id) then s1.(current := None) else s1
  }

  /** The tail shared by terminate, block and sleep: store the task's new record and, if
      it was the current task, drop it as current (without saving its registers) and
      schedule. A record that is neither READY nor RUNNING survives the rescheduling, and
      the task is not current afterwards. */
  function SetAsideOf(s: SchedState, p: Policy, id: nat, t: Task): (r: SchedState)
    requires Wf(s) && HasTask(s, id)
    requires t.id == id && t.state != Running && PrioritySane(t)
    ensures Wf(r)
    ensures s.current != Some(id) ==> r == StoreAsideOf(s, id, t)
    ensures s.current == Some(id) ==> r.current == ScheduleOf(StoreAsideOf(s, id, t), p).1
                                       && r.tickCount == s.tickCount && |r.tasks| == |s.tasks|
    ensures forall i :: 0 <= i < |s.tasks| && i != id - 1 && !Active(s.tasks, i) ==> r.tasks[i] == s.tasks[i]
    ensures t.state != Ready ==> r.tasks[id - 1] == t && r.current != Some(id)
  {
    var s1 := StoreAsideOf(s, id, t);
    assert t.state != Ready ==> !Active(s1.tasks, id - 1);
    ScheduleMovesOnlyActive(s1, p);
    if s.current == Some(id) then ScheduleOf(s1, p).0 else s1
  }

  /** `terminate_task(id)`. */
  function TerminateOf(s: SchedState, p: Policy, id: int): (r: Result<SchedState>)
    requires Wf(s)
    ensures r.Err? <==> !HasTask(s, id)
    ensures r.Err? ==> r.error == TaskNotFound
    ensures r.Ok? ==> Wf(r.value)
    ensures r.Ok? ==> var t := s.tasks[id - 1].(state := Terminated);
                      (s.current != Some(id) ==> r.value == StoreAsideOf(s, id, t))
                      && (s.current == Some(id) ==> r.value.current == ScheduleOf(StoreAsideOf(s, id, t), p).1)
    ensures r.Ok? ==> |r.value.tasks| == |s.tasks| &&
                      forall i :: 0 <= i < |s.tasks| && i != id - 1 && !Active(s.tasks, i) ==> r.value.tasks[i] == s.tasks[i]
    ensures r.Ok? ==> r.value.tasks[id - 1] == s.tasks[id - 1].(state := Terminated) && r.value.current != Some(id)
  {
    if !HasTask(s, id) then Err(TaskNotFound)
    else Ok(SetAsideOf(s, p, id, s.tasks[id - 1].(state := Terminated)))
  }

  /** `block_task(id)`. */
  function BlockOf(s: SchedState, p: Policy, id: int): (r: Result<SchedState>)
    requires Wf(s)
    ensures r.Err? <==> !HasTask(s, id)
    ensures r.Err? ==> r.error == TaskNotFound
    ensures r.Ok? ==> Wf(r.value)
    ensures r.Ok? ==> var t := s.tasks[id - 1].(state := Blocked);
                      (s.current != Some(id) ==> r.value == StoreAsideOf(s, id, t))
                      && (s.current == Some(id) ==> r.value.current == ScheduleOf(StoreAsideOf(s, id, t), p).1)
    ensures r.Ok? ==> |r.value.tasks| == |s.tasks| &&
                      forall i :: 0 <= i < |s.tasks| && i != id - 1 && !Active(s.tasks, i) ==> r.value.tasks[i] == s.tasks[i]
    ensures r.Ok? ==> r.value.tasks[id - 1] == s.tasks[id - 1].(state := Blocked) && r.value.current != Some(id)
  {
    if !HasTask(s, id) then Err(TaskNotFound)
    else Ok(SetAsideOf(s, p, id, s.tasks[id - 1].(state := Blocked)))
  }

  /** `sleep_task(id, ticks)`: the wake-up time is counted from the current tick. */
  function SleepOf(s: SchedState, p: Policy, id: int, ticks: int): (r: Result<SchedState>)
    requires Wf(s)
    ensures r.Err? <==> !HasTask(s, id)
    ensures r.Err? ==> r.error == TaskNotFound
    ensures r.Ok? ==> Wf(r.value)
    ensures r.Ok? ==> var t := s.tasks[id - 1].(state := Sleeping, wakeTime := s.tickCount + ticks);
                      (s.current != Some(id) ==> r.value == StoreAsideOf(s, id, t))
                      && (s.current == Some(id) ==> r.value.current == ScheduleOf(StoreAsideOf(s, id, t), p).1)
    ensures r.Ok? ==> |r.value.tasks| == |s.tasks| &&
                      forall i :: 0 <= i < |s.tasks| && i != id - 1 && !Active(s.tasks, i) ==> r.value.tasks[i] == s.tasks[i]
    ensures r.Ok? ==> r.value.tasks[id - 1] == s.tasks[id - 1].(state := Sleeping, wakeTime := s.tickCount + ticks) && r.value.current != Some(id)
  {
    if !HasTask(s, id) then Err(TaskNotFound)
    else Ok(SetAsideOf(s, p, id, s.tasks[id - 1].(state := Sleeping, wakeTime := s.tickCount + ticks)))
  }

  /** `unblock_task(id)`: only a BLOCKED task changes, and it becomes READY. */
  function UnblockOf(s: SchedState, id: int): (r: Result<SchedState>)
    requires Wf(s)
    ensures r.Err? <==> !HasTask(s, id)
    ensures r.Err? ==> r.error == TaskNotFound
    ensures r.Ok? ==> Wf(r.value)
    ensures r.Ok? && s.tasks[id - 1].state != Blocked ==> r.value == s
    ensures r.Ok? && s.tasks[id - 1].state == Blocked ==> r.value == WithState(s, id, Ready)
  {
    if !HasTask(s, id) then Err(TaskNotFound)
    else if s.tasks[id - 1].state == Blocked then Ok(WithState(s, id, Ready))
    else Ok(s)
  }

  /** Task i is READY or RUNNING, i.e. competing for the processor. */
  predicate Active(ts: seq<Task>, i: int)
    requires 0 <= i < |ts|
  {
    ts[i].state == Ready || ts[i].state == Running
  }

  /** From a to b, every competing task is still competing and every other task is
      exactly as it was. */
  predicate OnlyActiveMove(a: SchedState, b: SchedState)
  {
    && |b.tasks| == |a.tasks|
    && (forall i :: 0 <= i < |a.tasks| && Active(a.tasks, i) ==> Active(b.tasks, i))
    && (forall i :: 0 <= i < |a.tasks| && !Active(a.tasks, i) ==> b.tasks[i] == a.tasks[i])
  }

  /** A switch from the RUNNING task to a READY one (or to nothing) moves only competing
      tasks. */
  lemma SwitchMovesOnlyActive(s: SchedState, next: Option<nat>)
    requires Wf(s) && (next.Some? ==> HasTask(s, next.value) && s.tasks[next.value - 1].state == Ready)
    ensures OnlyActiveMove(s, ContextSwitchOf(s, next))
  {
    forall i | 0 <= i < |s.tasks| && !Active(s.tasks, i)
      ensures ContextSwitchOf(s, next).tasks[i] == s.tasks[i]
    {
      ContextSwitchLeavesOthers(s, next, i);
    }
  }

  /** `schedule`, under every policy, moves only competing tasks: BLOCKED, SLEEPING and
      TERMINATED tasks are never picked and never touched. */
  lemma {:induction false} ScheduleMovesOnlyActive(s: SchedState, p: Policy)
    requires Wf(s)
    ensures OnlyActiveMove(s, ScheduleOf(s, p).0)
  {
    match p
    case Priority =>
      var next := HighestPriorityReady(s.tasks);
      if next.Some? || s.current.Some? {
        SwitchMovesOnlyActive(s, next);
      }
    case RoundRobin(_) =>
      var next := NextRoundRobin(s.tasks, s.current);
      if next.Some? || s.current.Some? {
        SwitchMovesOnlyActive(s, next);
      }
    case Fcfs =>
      if !(s.current.Some? && s.tasks[s.current.value - 1].state == Running) {
        var next := OldestReady(s.tasks);
        if next.Some? || s.current.Some? {
          SwitchMovesOnlyActive(s, next);
        }
      }
  }

  /** The same holds for the part of `tick` that follows the wake-up and aging passes. */
  lemma {:induction false} PreemptAndSliceMoveOnlyActive(s: SchedState, p: Policy)
    requires Wf(s)
    ensures var s1 := PreemptOf(s, p);
            OnlyActiveMove(s, s1)
            && (p.RoundRobin? ==> OnlyActiveMove(s1, RoundRobinSliceOf(s1, p.timeSlice)))
  {
    var s1 := PreemptOf(s, p);
    if p.Priority? && s.current.Some? {
      ScheduleMovesOnlyActive(s, p);
    }
    if p.RoundRobin? && s1.current.Some? {
      ScheduleMovesOnlyActive(s1.(currentSlice := 0), p);
    }
  }

  /** What a tick does to one task: a sleeper whose wake-up time has come is competing
      afterwards, a sleeper whose time has not come keeps its record unchanged, a competing task keeps competing, and BLOCKED and TERMINATED tasks are left
      exactly as they were. */
  lemma {:induction false} TickPerTask(s: SchedState, p: Policy, agingEnabled: bool, i: int)
    requires Wf(s) && 0 <= i < |s.tasks|
    ensures var r := TickOf(s, p, agingEnabled);
            var t := s.tasks[i];
            (t.state == Sleeping && t.wakeTime <= s.tickCount + 1 ==> Active(r.tasks, i))
            && (t.state == Sleeping && t.wakeTime > s.tickCount + 1 ==> r.tasks[i] == t)
            && (Active(s.tasks, i) ==> Active(r.tasks, i))
            && (t.state == Blocked || t.state == Terminated ==> r.tasks[i] == t)
  {
    var s0 := BaseTickOf(s, agingEnabled);
    var now := s.tickCount + 1;
    WakeAllWakesDue(s.tasks, now, i);
    assert s0.tasks[i] == (if agingEnabled then Age(WakeAll(s.tasks, now)[i], now) else WakeAll(s.tasks, now)[i]);
    PreemptAndSliceMoveOnlyActive(s0, p);
  }

  /** Ticking n times in a row. */
  function TicksOf(s: SchedState, p: Policy, agingEnabled: bool, n: nat): (r: SchedState)
    requires Wf(s)
    ensures Wf(r) && r.tickCount == s.tickCount + n && |r.tasks| == |s.tasks|
    decreases n
  {
    if n == 0 then s else TicksOf(TickOf(s, p, agingEnabled), p, agingEnabled, n - 1)
  }

  /** A task put to sleep for n ticks, n >= 1, is competing for the processor again after
      n further ticks (READY, or already picked and RUNNING). */
  lemma {:induction false} SleeperWakesInTime(s: SchedState, p: Policy, agingEnabled: bool, i: int, n: nat)
    requires Wf(s) && 0 <= i < |s.tasks| && n >= 1
    requires s.tasks[i].state == Sleeping && s.tasks[i].wakeTime <= s.tickCount + n
    ensures Active(TicksOf(s, p, agingEnabled, n).tasks, i)
    decreases n
  {
    var s1 := TickOf(s, p, agingEnabled);
    TickPerTask(s, p, agingEnabled, i);
    if n > 1 {
      if Active(s1.tasks, i) {
        StaysActive(s1, p, agingEnabled, i, n - 1);
      } else {
        SleeperWakesInTime(s1, p, agingEnabled, i, n - 1);
      }
    }
  }

  /** A competing task keeps competing however many ticks pass. */
  lemma {:induction false} StaysActive(s: SchedState, p: Policy, agingEnabled: bool, i: int, n: nat)
    requires Wf(s) && 0 <= i < |s.tasks| && Active(s.tasks, i)
    ensures Active(TicksOf(s, p, agingEnabled, n).tasks, i)
    decreases n
  {
    if n > 0 {
      TickPerTask(s, p, agingEnabled, i);
      StaysActive(TickOf(s, p, agingEnabled), p, agingEnabled, i, n - 1);
    }
  }

  /** A TERMINATED task can be blocked and then unblocked back to READY. */
  lemma {:induction false} TerminatedCanBeRevived(s: SchedState, p: Policy, id: int)
    requires Wf(s) && HasTask(s, id) && s.tasks[id - 1].state == Terminated
    ensures var b := BlockOf(s, p, id).value;
            UnblockOf(b, id).value.tasks[id - 1].state == Ready
  {
  }

  /** `unblock_task` undoes `block_task` on a task that is not the current one. */
  lemma BlockThenUnblock(s: SchedState, p: Policy, id: int)
    requires Wf(s) && HasTask(s, id) && s.current != Some(id) && s.tasks[id - 1].state == Ready
    ensures UnblockOf(BlockOf(s, p, id).value, id) == Ok(s)
  {
    var t := s.tasks[id - 1];
    var b := s.(tasks := s.tasks[id - 1 := t.(state := Blocked)]);
    assert BlockOf(s, p, id) == Ok(b);
    assert b.tasks[id - 1].(state := Ready) == t;
    assert b.tasks[id - 1 := t] == s.tasks;
  }

  /** `create_task` with the default stack size on a table, the clock reading left at 0. */
  function Created(s: SchedState, name: string, priority: int, entryPoint: int): (r: SchedState)
    requires Wf(s)
    ensures Wf(r) && |r.tasks| == |s.tasks| + 1
  {
    CreatePreservesWf(s, name, priority, entryPoint, DEFAULT_STACK_SIZE, 0);
    CreateTaskOf(s, name, priority, entryPoint, DEFAULT_STACK_SIZE, 0).0
  }

  /** Three tasks created on a fresh scheduler with the given priorities, at entry points
      0x1000, 0x2000 and 0x3000. */
  function ThreeTasks(p1: int, p2: int, p3: int): (r: SchedState)
    ensures Wf(r) && |r.tasks| == 3 && r.current == None
    ensures forall i :: 0 <= i < 3 ==> r.tasks[i].state == Ready && r.tasks[i].context == None
    ensures r.tasks[0].priority == p1 && r.tasks[1].priority == p2 && r.tasks[2].priority == p3
    ensures forall i :: 0 <= i < 3 ==> r.tasks[i].lastRunTime == 0
  {
    var s0 := InitialSched(InitialRegs());
    Created(Created(Created(s0, "Task1", p1, 0x1000), "Task2", p2, 0x2000), "Task3", p3, 0x3000)
  }

  /** Priorities 1, 5 and 10: the first `schedule` picks task 1, the most urgent, and
      starts it at its entry point. */
  lemma {:induction false} PriorityExample()
    ensures var (s', r) := ScheduleOf(ThreeTasks(1, 5, 10), Priority);
            r == Some(1) && s'.regs.pc == 0x1000
  {
    var s := ThreeTasks(1, 5, 10);
    var next := HighestPriorityReady(s.tasks);
    assert next == Some(1) by {
      assert s.tasks[0].state == Ready;
    }
    ContextSwitchStartsFresh(s, 1);
  }

  /** Three equal tasks under round-robin: the first `schedule` picks task 1. */
  lemma {:induction false} RoundRobinExample(timeSlice: int)
    ensures ScheduleOf(ThreeTasks(5, 5, 5), RoundRobin(timeSlice)).1 == Some(1)
  {
    var s := ThreeTasks(5, 5, 5);
    StartsFromSmallest(s.tasks, None);
    assert s.tasks[0].state == Ready;
  }

  /** Round-robin as written, with three tasks: while task c in {1, 2} runs and the other
      two are READY, `schedule` hands the processor to the other one of tasks 1 and 2,
      never to task 3, which is left exactly as it was. */
  lemma {:induction false} RoundRobinAlternates(s: SchedState, timeSlice: int, c: nat)
    requires Wf(s) && |s.tasks| == 3 && (c == 1 || c == 2) && s.current == Some(c)
    requires s.tasks[2 - c].state == Ready && s.tasks[2].state == Ready
    ensures var (s', r) := ScheduleOf(s, RoundRobin(timeSlice));
            r == Some(3 - c) && s'.tasks[c - 1].state == Ready && s'.tasks[2] == s.tasks[2]
  {
    StartsFromSmallest(s.tasks, s.current);
    var r := NextRoundRobin(s.tasks, s.current);
    assert r == Some(3 - c);
    ContextSwitchSavesOutgoing(s, r);
    ContextSwitchLeavesOthers(s, r, 2);
  }

  /** Round-robin as written: the RUNNING task is never among the READY ids, so every
      expiry of a slice restarts from the smallest READY id. With three READY tasks the
      turns go 1, 2, 1, 2, ... and task 3 never gets the processor. */
  lemma {:induction false} RoundRobinSkipsThirdTask(timeSlice: int)
    ensures var p := RoundRobin(timeSlice);
            var s0 := ThreeTasks(5, 5, 5);
            var (s1, a) := ScheduleOf(s0, p);
            var (s2, b) := ScheduleOf(s1, p);
            var (s3, c) := ScheduleOf(s2, p);
            a == Some(1) && b == Some(2) && c == Some(1) && s3.tasks[2] == s0.tasks[2]
  {
    var p := RoundRobin(timeSlice);
    var s0 := ThreeTasks(5, 5, 5);
    RoundRobinExample(timeSlice);
    ContextSwitchLeavesOthers(s0, Some(1), 1);
    ContextSwitchLeavesOthers(s0, Some(1), 2);
    var s1 := ScheduleOf(s0, p).0;
    RoundRobinAlternates(s1, timeSlice, 1);
    var s2 := ScheduleOf(s1, p).0;
    RoundRobinAlternates(s2, timeSlice, 2);
  }

  /** FCFS with two tasks: when task 1 is running and task 2 is READY, terminating task 1
      hands the processor to task 2, and a later `schedule` keeps it there. */
  lemma {:induction false} FcfsTerminateHandsOver(s: SchedState)
    requires Wf(s) && |s.tasks| == 2 && s.current == Some(1) && s.tasks[1].state == Ready
    ensures var s' := TerminateOf(s, Fcfs, 1).value;
            s'.current == Some(2) && ScheduleOf(s', Fcfs).1 == Some(2)
  {
    var s1 := StoreAsideOf(s, 1, s.tasks[0].(state := Terminated));
    assert s1.tasks[1].state == Ready && s1.current == None;
    FcfsPicksOldest(s1);
    var s' := TerminateOf(s, Fcfs, 1).value;
    assert s'.current == Some(2);
    FcfsKeepsCurrent(s');
  }

  /** FCFS ignores priority: task 1 (priority 5) created before task 2 (priority 1) is
      scheduled first; once task 1 is terminated, task 2 is running and `schedule` keeps
      it. */
  lemma {:induction false} FcfsExample()
    ensures var s := Created(Created(InitialSched(InitialRegs()), "Task1", 5, 0x1000), "Task2", 1, 0x2000);
            var (s1, a) := ScheduleOf(s, Fcfs);
            var s2 := TerminateOf(s1, Fcfs, 1).value;
            a == Some(1) && ScheduleOf(s2, Fcfs).1 == Some(2)
  {
    var s := Created(Created(InitialSched(InitialRegs()), "Task1", 5, 0x1000), "Task2", 1, 0x2000);
    assert s.tasks[0].state == Ready && s.tasks[1].state == Ready;
    assert s.tasks[0].lastRunTime == 0 && s.tasks[1].lastRunTime == 0;
    var (s1, a) := ScheduleOf(s, Fcfs);
    assert a == Some(1);
    ContextSwitchLeavesOthers(s, Some(1), 1);
    FcfsTerminateHandsOver(s1);
  }

  /** Under the priority policy a tick with no current task is only the shared part: the
      preemption check has nothing to preempt, so there is still no current task. */
  lemma IdlePriorityTick(s: SchedState, agingEnabled: bool)
    requires Wf(s) && s.current.None?
    ensures TickOf(s, Priority, agingEnabled) == BaseTickOf(s, agingEnabled)
    ensures TickOf(s, Priority, agingEnabled).current == None
  {
    NoPreemptionWhenIdle(BaseTickOf(s, agingEnabled));
  }

  /** With the priority policy and no current task, a READY task is still READY however
      many ticks pass. */
  lemma {:induction false} IdleReadyStaysReady(s: SchedState, agingEnabled: bool, i: int, n: nat)
    requires Wf(s) && s.current.None? && 0 <= i < |s.tasks| && s.tasks[i].state == Ready
    ensures TicksOf(s, Priority, agingEnabled, n).tasks[i].state == Ready
    decreases n
  {
    if n > 0 {
      IdlePriorityTick(s, agingEnabled);
      WakeAllWakesDue(s.tasks, s.tickCount + 1, i);
      IdleReadyStaysReady(TickOf(s, Priority, agingEnabled), agingEnabled, i, n - 1);
    }
  }

  /** With the priority policy and no current task, a sleeper whose wake-up time comes
      within n ticks is READY after n ticks. */
  lemma {:induction false} IdleSleeperWakes(s: SchedState, agingEnabled: bool, i: int, n: nat)
    requires Wf(s) && s.current.None? && 0 <= i < |s.tasks| && n >= 1
    requires s.tasks[i].state == Sleeping && s.tasks[i].wakeTime <= s.tickCount + n
    ensures TicksOf(s, Priority, agingEnabled, n).tasks[i].state == Ready
    decreases n
  {
    var s1 := TickOf(s, Priority, agingEnabled);
    IdlePriorityTick(s, agingEnabled);
    WakeAllWakesDue(s.tasks, s.tickCount + 1, i);
    if s.tasks[i].wakeTime <= s.tickCount + 1 {
      IdleReadyStaysReady(s1, agingEnabled, i, n - 1);
    } else {
      IdleSleeperWakes(s1, agingEnabled, i, n - 1);
    }
  }

  /** With the round-robin policy, `tick` only schedules when a slice runs out, and a
      slice only runs while there is a current task: once idle, the scheduler stays idle
      however many ticks pass, even with READY tasks waiting. */
  lemma {:induction false} IdleRoundRobinStaysIdle(s: SchedState, timeSlice: int, agingEnabled: bool, n: nat)
    requires Wf(s) && s.current.None?
    ensures TicksOf(s, RoundRobin(timeSlice), agingEnabled, n).current == None
    decreases n
  {
    if n > 0 {
      var s1 := TickOf(s, RoundRobin(timeSlice), agingEnabled);
      assert s1 == BaseTickOf(s, agingEnabled);
      IdleRoundRobinStaysIdle(s1, timeSlice, agingEnabled, n - 1);
    }
  }

  /** A task put to sleep for 10 ticks on a fresh priority scheduler is SLEEPING with
      wake-up time 10, and READY again after 10 ticks. */
  lemma {:induction false} SleepExample(agingEnabled: bool)
    ensures var s := Created(InitialSched(InitialRegs()), "TestTask", 5, 0x1000);
            var s1 := SleepOf(s, Priority, 1, 10).value;
            s1.tasks[0].state == Sleeping && s1.tasks[0].wakeTime == 10
            && TicksOf(s1, Priority, agingEnabled, 10).tasks[0].state == Ready
  {
    var s := Created(InitialSched(InitialRegs()), "TestTask", 5, 0x1000);
    var s1 := SleepOf(s, Priority, 1, 10).value;
    assert s1 == StoreAsideOf(s, 1, s.tasks[0].(state := Sleeping, wakeTime := 10));
    IdleSleeperWakes(s1, agingEnabled, 0, 10);
  }

  /** The scheduler object: the task table and counters are fields replaced in place, the
      register file is the simulator's, shared by reference, and `agingEnabled` stands for
      whether `_apply_aging` is the aging pass or has been swapped for a no-op. */
  class Scheduler {
    const regs: Registers
    const policy: Policy
    var tasks: seq<Task>
    var current: Option<nat>
    var nextTaskId: nat
    var tickCount: nat
    var contextSwitches: nat
    var currentSlice: nat
    var agingEnabled: bool

    /** The scheduler's state as a value, register file included. */
    function Model(): SchedState
      reads this, regs
    {
      SchedState(tasks, current, nextTaskId, tickCount, contextSwitches, currentSlice, regs.State())
    }

    ghost predicate Valid()
      reads this, regs
    {
      Wf(Model())
    }

    /** A scheduler with no tasks over the given register file; aging is on. */
    constructor (regs: Registers, policy: Policy)
      ensures this.regs == regs && this.policy == policy && agingEnabled
      ensures Model() == InitialSched(regs.State()) && Valid()
    {
      this.regs := regs;
      this.policy := policy;
      tasks := [];
      current := None;
      nextTaskId := 1;
      tickCount := 0;
      contextSwitches := 0;
      currentSlice := 0;
      agingEnabled := true;
    }

    /** `create_task`; `now` is the clock reading taken for the creation time. */
    method CreateTask(name: string, priority: int, entryPoint: int, stackSize: int, now: int) returns (t: Task)
      requires Valid()
      modifies this
      ensures (Model(), t) == CreateTaskOf(old(Model()), name, priority, entryPoint, stackSize, now)
      ensures Valid() && agingEnabled == old(agingEnabled)
    {
      CreatePreservesWf(Model(), name, priority, entryPoint, stackSize, now);
      var id := nextTaskId;
      nextTaskId := nextTaskId + 1;
      t := Task(id, name, priority, priority, entryPoint, stackSize, STACK_TOP - id * stackSize,
                Ready, None, 0, now, 0, 0, 0);
      tasks := tasks + [t];
    }

    /** The outgoing half of `context_switch`. */
    method SwitchOut()
      requires current.Some? ==> HasTask(Model(), current.value)
      modifies this, regs
      ensures Model() == SwitchOutOf(old(Model()))
      ensures agingEnabled == old(agingEnabled)
    {
      if current.Some? {
        var id := current.value;
        var t := tasks[id - 1];
        var ctx := regs.SaveContext();
        tasks := tasks[id - 1 := t.(state := if t.state == Running then Ready else t.state,
                                    context := Some(ctx), lastRunTime := tickCount)];
      }
    }

    /** The incoming half of `context_switch`. */
    method SwitchIn(next: Option<nat>)
      requires next.Some? ==> HasTask(Model(), next.value)
      modifies this, regs
      ensures Model() == SwitchInOf(old(Model()), next)
      ensures agingEnabled == old(agingEnabled)
    {
      current := next;
      if next.Some? {
        var id := next.value;
        var t := tasks[id - 1];
        match t.context {
          case Some(ctx) =>
            var o := regs.RestoreContext(Some(ctx));
          case None =>
            regs.Reset();
            regs.SetPc(t.entryPoint);
            var o := regs.Write(SP, t.stackPointer);
        }
        tasks := tasks[id - 1 := t.(state := Running, runCount := t.runCount + 1)];
      }
    }

    /** `context_switch(next)`. */
    method ContextSwitch(next: Option<nat>)
      requires Valid() && (next.Some? ==> HasTask(Model(), next.value))
      modifies this, regs
      ensures Model() == ContextSwitchOf(old(Model()), next)
      ensures Valid() && agingEnabled == old(agingEnabled)
    {
      SwitchOut();
      SwitchIn(next);
      contextSwitches := contextSwitches + 1;
    }

    /** `schedule()` of the policy in use. */
    method Schedule() returns (r: Option<nat>)
      requires Valid()
      modifies this, regs
      ensures (Model(), r) == ScheduleOf(old(Model()), policy)
      ensures Valid() && agingEnabled == old(agingEnabled)
    {
      match policy {
        case Priority =>
          var next := HighestPriorityReady(tasks);
          if next.Some? {
            if current != next {
              ContextSwitch(next);
            }
            r := next;
          } else {
            if current.Some? {
              ContextSwitch(None);
            }
            r := current;
          }
        case RoundRobin(_) =>
          var next := NextRoundRobin(tasks, current);
          if next.Some? {
            if current != next {
              ContextSwitch(next);
              currentSlice := 0;
            }
            r := next;
          } else {
            if current.Some? {
              ContextSwitch(None);
            }
            r := current;
          }
        case Fcfs =>
          if current.Some? && tasks[current.value - 1].state == Running {
            r := current;
          } else {
            // With the invariant, a current task is always RUNNING, so here there is none
            // and the source's two calls (to the oldest READY task, or to idle) are one.
            var next := OldestReady(tasks);
            if next.Some? || current.Some? {
              ContextSwitch(next);
            }
            r := current;
          }
      }
    }

    /** Stores a task's new record; if it was the current task, drops it as current and
      schedules. */
    method SetAside(id: nat, t: Task)
      requires Valid() && HasTask(Model(), id)
      requires t.id == id && t.state != Running && PrioritySane(t)
      modifies this, regs
      ensures Model() == SetAsideOf(old(Model()), policy, id, t)
      ensures Valid() && agingEnabled == old(agingEnabled)
    {
      var wasCurrent := current == Some(id);
      tasks := tasks[id - 1 := t];
      if wasCurrent {
        current := None;
        var _ := Schedule();
      }
    }

    /** `terminate_task(id)`; an unknown id is reported and nothing changes. */
    method TerminateTask(id: int) returns (o: Outcome)
      requires Valid()
      modifies this, regs
      ensures match TerminateOf(old(Model()), policy, id)
              case Ok(s') => o == Pass && Model() == s'
              case Err(e) => o == Fail(e) && Model() == old(Model())
      ensures Valid() && agingEnabled == old(agingEnabled)
    {
      ghost var s0 := Model();
      if !(1 <= id <= |tasks|) {
        return Fail(TaskNotFound);
      }
      SetAside(id, tasks[id - 1].(state := Terminated));
      assert TerminateOf(s0, policy, id) == Ok(Model());
      o := Pass;
    }

    /** `block_task(id)`. */
    method BlockTask(id: int) returns (o: Outcome)
      requires Valid()
      modifies this, regs
      ensures match BlockOf(old(Model()), policy, id)
              case Ok(s') => o == Pass && Model() == s'
              case Err(e) => o == Fail(e) && Model() == old(Model())
      ensures Valid() && agingEnabled == old(agingEnabled)
    {
      ghost var s0 := Model();
      if !(1 <= id <= |tasks|) {
        return Fail(TaskNotFound);
      }
      SetAside(id, tasks[id - 1].(state := Blocked));
      assert BlockOf(s0, policy, id) == Ok(Model());
      o := Pass;
    }

    /** `sleep_task(id, ticks)`. */
    method SleepTask(id: int, ticks: int) returns (o: Outcome)
      requires Valid()
      modifies this, regs
      ensures match SleepOf(old(Model()), policy, id, ticks)
              case Ok(s') => o == Pass && Model() == s'
              case Err(e) => o == Fail(e) && Model() == old(Model())
      ensures Valid() && agingEnabled == old(agingEnabled)
    {
      ghost var s0 := Model();
      if !(1 <= id <= |tasks|) {
        return Fail(TaskNotFound);
      }
      SetAside(id, tasks[id - 1].(state := Sleeping, wakeTime := tickCount + ticks));
      assert SleepOf(s0, policy, id, ticks) == Ok(Model());
      o := Pass;
    }

    /** `unblock_task(id)`. */
    method UnblockTask(id: int) returns (o: Outcome)
      requires Valid()
      modifies this
      ensures match UnblockOf(old(Model()), id)
              case Ok(s') => o == Pass && Model() == s'
              case Err(e) => o == Fail(e) && Model() == old(Model())
      ensures Valid() && agingEnabled == old(agingEnabled)
    {
      if !(1 <= id <= |tasks|) {
        return Fail(TaskNotFound);
      }
      if tasks[id - 1].state == Blocked {
        tasks := tasks[id - 1 := tasks[id - 1].(state := Ready)];
      }
      o := Pass;
    }

    /** The wake-up loop of `tick`, at the tick count already advanced. */
    method WakeSleepers()
      modifies this
      ensures tasks == WakeAll(old(tasks), tickCount)
      ensures Model() == old(Model()).(tasks := tasks) && agingEnabled == old(agingEnabled)
    {
      ghost var ts0 := tasks;
      var i := 0;
      while i < |tasks|
        invariant 0 <= i <= |tasks| == |ts0|
        invariant forall k :: 0 <= k < i ==> tasks[k] == Wake(ts0[k], tickCount)
        invariant forall k :: i <= k < |tasks| ==> tasks[k] == ts0[k]
        invariant Model() == old(Model()).(tasks := tasks) && agingEnabled == old(agingEnabled)
      {
        var t := tasks[i];
        if t.state == Sleeping && t.wakeTime <= tickCount {
          tasks := tasks[i := t.(state := Ready)];
        }
        i := i + 1;
      }
    }

    /** `_apply_aging`. */
    method ApplyAging()
      modifies this
      ensures tasks == AgeAll(old(tasks), tickCount)
      ensures Model() == old(Model()).(tasks := tasks) && agingEnabled == old(agingEnabled)
    {
      ghost var ts0 := tasks;
      var i := 0;
      while i < |tasks|
        invariant 0 <= i <= |tasks| == |ts0|
        invariant forall k :: 0 <= k < i ==> tasks[k] == Age(ts0[k], tickCount)
        invariant forall k :: i <= k < |tasks| ==> tasks[k] == ts0[k]
        invariant Model() == old(Model()).(tasks := tasks) && agingEnabled == old(agingEnabled)
      {
        var t := tasks[i];
        if t.state == Ready && t.priority > 1 {
          var waitTime := tickCount - t.lastRunTime;
          if waitTime > AGING_THRESHOLD {
            tasks := tasks[i := t.(priority := Max(t.priority - 1, 1))];
          }
        }
        i := i + 1;
      }
    }

    /** `_check_preemption` of the policy in use. */
    method CheckPreemption()
      requires Valid()
      modifies this, regs
      ensures Model() == PreemptOf(old(Model()), policy)
      ensures Valid() && agingEnabled == old(agingEnabled)
    {
      if policy.Priority? && current.Some? {
        var best := HighestPriorityReady(tasks);
        if best.Some? && tasks[best.value - 1].priority < tasks[current.value - 1].priority {
          ghost var s0 := Model();
          var _ := Schedule();
          assert Model() == PriorityScheduleOf(s0).0;
        }
      }
    }

    /** The part of `tick` every policy shares: advance the clock, wake due sleepers and,
        while aging is enabled, age waiting tasks. */
    method BaseTick()
      requires Valid()
      modifies this
      ensures Model() == BaseTickOf(old(Model()), agingEnabled)
      ensures Valid() && agingEnabled == old(agingEnabled)
    {
      tickCount := tickCount + 1;
      WakeSleepers();
      if agingEnabled {
        ApplyAging();
      }
    }

    /** The round-robin part of `tick`: count the tick against the current task's slice
        and schedule when the slice is used up. */
    method AccountSlice(timeSlice: int)
      requires Valid() && policy == RoundRobin(timeSlice)
      modifies this, regs
      ensures Model() == RoundRobinSliceOf(old(Model()), timeSlice)
      ensures Valid() && agingEnabled == old(agingEnabled)
    {
      if current.Some? {
        currentSlice := currentSlice + 1;
        if currentSlice >= timeSlice {
          currentSlice := 0;
          ghost var s1 := Model();
          var _ := Schedule();
          assert Model() == RoundRobinScheduleOf(s1).0;
        }
      }
    }

    /** `tick()`: the shared part, the preemption check and, under round-robin, the slice
        accounting. */
    method Tick()
      requires Valid()
      modifies this, regs
      ensures Model() == TickOf(old(Model()), policy, old(agingEnabled))
      ensures Valid() && agingEnabled == old(agingEnabled)
    {
      BaseTick();
      CheckPreemption();
      if policy.RoundRobin? {
        AccountSlice(policy.timeSlice);
      }
    }

    /** `get_scheduler_stats()`. */
    method GetSchedulerStats() returns (r: SchedulerStats)
      requires Valid()
      ensures r == StatsOf(Model())
    {
      r := SchedulerStats(tickCount, contextSwitches, |tasks|, current);
    }

    /** Turns the aging pass on or off. */
    method SetAgingEnabled(enabled: bool)
      modifies this
      ensures agingEnabled == enabled && Model() == old(Model())
    {
      agingEnabled := enabled;
    }
  }
}
