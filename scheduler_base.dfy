/** The part of the task scheduler every policy shares: the task table, the
    READY/RUNNING/BLOCKED/SLEEPING/TERMINATED lifecycle, the per-tick wake-up and aging
    passes, and the context switch that moves register state in and out of tasks. */
module SchedulerBase {
  import opened Common
  import opened RegisterFile

  datatype TaskState = Ready | Running | Blocked | Sleeping | Terminated

  const DEFAULT_STACK_SIZE: int := 1024

  /** Stacks are laid out downwards from here: task n gets STACK_TOP - n * stack_size. */
  const STACK_TOP: int := 0x8000_0000

  /** A READY task that last ran more than this many ticks ago moves up one priority step. */
  const AGING_THRESHOLD: int := 100

  /** A task record. `priority` is the live value (lower means more urgent) and
      `originalPriority` the value it was created with. `creationTime` is the clock reading
      at creation, passed in by the caller. */
  datatype Task = Task(
    id: nat,
    name: string,
    priority: int,
    originalPriority: int,
    entryPoint: int,
    stackSize: int,
    stackPointer: int,
    state: TaskState,
    context: Option<Context>,
    wakeTime: int,
    creationTime: int,
    totalRuntime: int,
    lastRunTime: int,
    runCount: nat)

  /** The scheduler's own state. Tasks are kept in creation order, which is the order of
      the id-keyed table; `current` is the id of the current task. `currentSlice` is only
      ever moved by the round-robin policy. `regs` is the register file of the simulator
      the scheduler drives. */
  datatype SchedState = SchedState(
    tasks: seq<Task>,
    current: Option<nat>,
    nextTaskId: nat,
    tickCount: nat,
    contextSwitches: nat,
    currentSlice: nat,
    regs: RegState)

  /** Task ids are handed out as 1, 2, 3, ... and never removed, so the task with id n
      sits at position n - 1. */
  predicate IdsInOrder(ts: seq<Task>)
  {
    forall i :: 0 <= i < |ts| ==> ts[i].id == i + 1
  }

  /** `task_id in self.tasks`, for a table whose ids are in order. */
  predicate HasTask(s: SchedState, id: int)
  {
    1 <= id <= |s.tasks|
  }

  /** Aging only ever lowers a priority value by steps and never below 1. */
  predicate PrioritySane(t: Task)
  {
    t.priority <= t.originalPriority && (1 <= t.priority || t.priority == t.originalPriority)
  }

  /** The invariant every scheduler operation keeps: ids in order and in step with
      `next_task_id`, the current task in the table, exactly the current task RUNNING, and
      every priority within its aging bounds. */
  predicate Wf(s: SchedState)
  {
    && IdsInOrder(s.tasks)
    && s.nextTaskId == |s.tasks| + 1
    && (s.current.Some? ==> HasTask(s, s.current.value))
    && (forall i :: 0 <= i < |s.tasks| ==> (s.tasks[i].state == Running <==> s.current == Some(i + 1)))
    && (forall i :: 0 <= i < |s.tasks| ==> PrioritySane(s.tasks[i]))
  }

  /** A fresh scheduler over the given register file. */
  function InitialSched(regs: RegState): (r: SchedState)
    ensures Wf(r) && |r.tasks| == 0 && r.current == None && r.nextTaskId == 1
  {
    SchedState([], None, 1, 0, 0, 0, regs)
  }

  /** With ids in order, membership of the id-keyed table is exactly "some task carries
      that id". */
  lemma HasTaskIffListed(s: SchedState, id: int)
    requires IdsInOrder(s.tasks)
    ensures HasTask(s, id) <==> exists i :: 0 <= i < |s.tasks| && s.tasks[i].id == id
  {
    if HasTask(s, id) {
      assert s.tasks[id - 1].id == id;
    }
  }

  /** `create_task`: the next id, READY, live priority equal to the original one, no
      context yet, and a stack pointer one stack below the previous task's. The creation
      time is the clock's reading; the last run time starts at 0, so a new task counts as
      the oldest for first-come-first-served and as long-waiting for aging. */
  function CreateTaskOf(s: SchedState, name: string, priority: int, entryPoint: int, stackSize: int, now: int): (r: (SchedState, Task))
    ensures r.1.id == s.nextTaskId && r.0.nextTaskId == s.nextTaskId + 1
    ensures r.0.tasks == s.tasks + [r.1]
    ensures r.1.name == name && r.1.entryPoint == entryPoint && r.1.stackSize == stackSize
    ensures r.1.state == Ready && r.1.priority == priority && r.1.originalPriority == priority
    ensures r.1.runCount == 0 && r.1.context == None
    ensures r.1.lastRunTime == 0 && r.1.wakeTime == 0 && r.1.totalRuntime == 0 && r.1.creationTime == now
    ensures r.1.stackPointer == STACK_TOP - r.1.id * stackSize
    ensures r.0.current == s.current && r.0.tickCount == s.tickCount && r.0.regs == s.regs
    ensures r.0.contextSwitches == s.contextSwitches && r.0.currentSlice == s.currentSlice
  {
    var id := s.nextTaskId;
    var t := Task(id, name, priority, priority, entryPoint, stackSize, STACK_TOP - id * stackSize,
                  Ready, None, 0, now, 0, 0, 0);
    (s.(tasks := s.tasks + [t], nextTaskId := id + 1), t)
  }

  /** Creating a task keeps the invariant, the new task is found under its id, and its id
      is larger than every id handed out before. */
  lemma CreatePreservesWf(s: SchedState, name: string, priority: int, entryPoint: int, stackSize: int, now: int)
    requires Wf(s)
    ensures var (s', t) := CreateTaskOf(s, name, priority, entryPoint, stackSize, now);
            Wf(s') && HasTask(s', t.id) && s'.tasks[t.id - 1] == t && !HasTask(s, t.id)
            && forall i :: 0 <= i < |s.tasks| ==> s.tasks[i].id < t.id
  {
  }

  /** Replaces the state of one task: no other field of that task, no other task and
      nothing else of the scheduler changes. */
  function WithState(s: SchedState, id: nat, st: TaskState): (r: SchedState)
    requires HasTask(s, id)
    ensures |r.tasks| == |s.tasks| && r.tasks[id - 1].state == st
    ensures r.tasks[id - 1].(state := s.tasks[id - 1].state) == s.tasks[id - 1]
    ensures forall i :: 0 <= i < |s.tasks| && i != id - 1 ==> r.tasks[i] == s.tasks[i]
    ensures r.(tasks := s.tasks) == s
  {
    s.(tasks := s.tasks[id - 1 := s.tasks[id - 1].(state := st)])
  }

  /** The outgoing half of `context_switch`: a RUNNING current task becomes READY, it
      keeps a snapshot of the registers and the tick it last ran at, and the register file
      records that snapshot as its saved context. */
  function SwitchOutOf(s: SchedState): (r: SchedState)
    requires s.current.Some? ==> HasTask(s, s.current.value)
    ensures |r.tasks| == |s.tasks| && r.regs.x == s.regs.x && r.regs.pc == s.regs.pc
    ensures r.(tasks := s.tasks, regs := s.regs) == s
    ensures forall i :: 0 <= i < |s.tasks| && s.current != Some(i + 1) ==> r.tasks[i] == s.tasks[i]
    ensures s.current.None? ==> r == s
    ensures s.current.Some? ==>
              var c := s.current.value;
              r.regs.saved == Some(Context(s.regs.x, s.regs.pc)) && r.tasks[c - 1].state != Running
              && r.tasks[c - 1].(state := s.tasks[c - 1].state, context := s.tasks[c - 1].context,
                                 lastRunTime := s.tasks[c - 1].lastRunTime) == s.tasks[c - 1]
              && r.tasks[c - 1].context == r.regs.saved && r.tasks[c - 1].lastRunTime == s.tickCount
  {
    match s.current
    case None => s
    case Some(id) =>
      var t := s.tasks[id - 1];
      var (ctx, regs') := SaveContextOf(s.regs);
      var t' := t.(state := if t.state == Running then Ready else t.state,
                   context := Some(ctx), lastRunTime := s.tickCount);
      s.(tasks := s.tasks[id - 1 := t'], regs := regs')
  }

  /** The registers a task starts with on its first run: all zero, then the pc set to the
      entry point and x2 to the stack pointer, both masked to 32 bits. */
  function StartRegs(t: Task): (r: RegState)
    ensures r.pc == Mask32(t.entryPoint) && r.saved == None
    ensures ReadReg(r, SP) == Ok(Mask32(t.stackPointer))
    ensures forall n :: IsRegister(n) && n != SP ==> ReadReg(r, n) == Ok(0)
  {
    WriteReg(SetPcTo(InitialRegs(), t.entryPoint), SP, t.stackPointer).value
  }

  /** The incoming half of `context_switch`: `next` becomes current; a task with a context
      gets its registers and pc back, a task without one starts from StartRegs; the task
      becomes RUNNING and its run count goes up by one. */
  function SwitchInOf(s: SchedState, next: Option<nat>): (r: SchedState)
    requires next.Some? ==> HasTask(s, next.value)
    ensures r.current == next && |r.tasks| == |s.tasks|
    ensures r.(tasks := s.tasks, current := s.current, regs := s.regs) == s
    ensures forall i :: 0 <= i < |s.tasks| && next != Some(i + 1) ==> r.tasks[i] == s.tasks[i]
    ensures next.None? ==> r.regs == s.regs
    ensures next.Some? ==>
              var n := next.value;
              var t := s.tasks[n - 1];
              r.tasks[n - 1] == t.(state := Running, runCount := t.runCount + 1)
              && (t.context.Some? ==> r.regs.x == t.context.value.registers && r.regs.pc == t.context.value.pc
                                      && r.regs.saved == s.regs.saved)
              && (t.context.None? ==> r.regs == StartRegs(t))
  {
    match next
    case None => s.(current := None)
    case Some(id) =>
      var t := s.tasks[id - 1];
      var regs' := match t.context
        case Some(ctx) => RestoreContextOf(s.regs, Some(ctx)).value
        case None => StartRegs(t);
      s.(tasks := s.tasks[id - 1 := t.(state := Running, runCount := t.runCount + 1)],
         current := next, regs := regs')
  }

  /** `context_switch(next)`: switch out, switch in, and count the switch, also when
      switching to nothing. The invariant survives. */
  function ContextSwitchOf(s: SchedState, next: Option<nat>): (r: SchedState)
    requires Wf(s)
    requires next.Some? ==> HasTask(s, next.value)
    ensures Wf(r)
    ensures r.current == next && r.contextSwitches == s.contextSwitches + 1
    ensures |r.tasks| == |s.tasks| && r.nextTaskId == s.nextTaskId
    ensures r.tickCount == s.tickCount && r.currentSlice == s.currentSlice
  {
    var s2 := SwitchInOf(SwitchOutOf(s), next);
    s2.(contextSwitches := s2.contextSwitches + 1)
  }

  /** Tasks other than the outgoing and the incoming one are untouched by a switch. */
  lemma ContextSwitchLeavesOthers(s: SchedState, next: Option<nat>, i: int)
    requires Wf(s) && (next.Some? ==> HasTask(s, next.value))
    requires 0 <= i < |s.tasks| && s.current != Some(i + 1) && next != Some(i + 1)
    ensures ContextSwitchOf(s, next).tasks[i] == s.tasks[i]
  {
  }

  /** The outgoing task is READY again, holds the registers and pc as they were, and
      records the current tick as its last run. */
  lemma ContextSwitchSavesOutgoing(s: SchedState, next: Option<nat>)
    requires Wf(s) && (next.Some? ==> HasTask(s, next.value))
    requires s.current.Some? && next != s.current
    ensures var c := s.current.value;
            ContextSwitchOf(s, next).tasks[c - 1]
              == s.tasks[c - 1].(state := Ready, context := Some(Context(s.regs.x, s.regs.pc)),
                                 lastRunTime := s.tickCount)
  {
  }

  /** An incoming task that ran before gets exactly the registers and pc of its
      snapshot; it is RUNNING and has one more run. */
  lemma ContextSwitchResumes(s: SchedState, n: nat)
    requires Wf(s) && HasTask(s, n) && s.current != Some(n)
    requires s.tasks[n - 1].context.Some?
    ensures var r := ContextSwitchOf(s, Some(n));
            var ctx := s.tasks[n - 1].context.value;
            r.regs.x == ctx.registers && r.regs.pc == ctx.pc
            && r.tasks[n - 1] == s.tasks[n - 1].(state := Running, runCount := s.tasks[n - 1].runCount + 1)
  {
  }

  /** An incoming task that never ran starts at its entry point with its stack pointer
      in x2 and every other register zero. */
  lemma ContextSwitchStartsFresh(s: SchedState, n: nat)
    requires Wf(s) && HasTask(s, n) && s.current != Some(n)
    requires s.tasks[n - 1].context.None?
    ensures var r := ContextSwitchOf(s, Some(n));
            var t := s.tasks[n - 1];
            r.regs.pc == Mask32(t.entryPoint)
            && ReadReg(r.regs, SP) == Ok(Mask32(t.stackPointer))
            && (forall m :: IsRegister(m) && m != SP ==> ReadReg(r.regs, m) == Ok(0))
            && r.tasks[n - 1] == t.(state := Running, runCount := t.runCount + 1)
  {
  }

  /** Switching to nothing leaves no task RUNNING. */
  lemma ContextSwitchToIdle(s: SchedState)
    requires Wf(s)
    ensures forall i :: 0 <= i < |s.tasks| ==> ContextSwitchOf(s, None).tasks[i].state != Running
  {
  }

  /** One task's part of the wake-up pass: only the state can change, and it changes
      exactly for a sleeper whose wake-up time has come, which becomes READY. */
  function Wake(t: Task, now: int): (r: Task)
    ensures r.(state := t.state) == t
    ensures r != t <==> t.state == Sleeping && t.wakeTime <= now
    ensures r != t ==> r.state == Ready
  {
    if t.state == Sleeping && t.wakeTime <= now then t.(state := Ready) else t
  }

  /** The wake-up pass of `tick` over the whole table. */
  function WakeAll(ts: seq<Task>, now: int): (r: seq<Task>)
    ensures |r| == |ts|
    ensures forall i :: 0 <= i < |ts| ==> r[i].(state := ts[i].state) == ts[i]
    ensures forall i :: 0 <= i < |ts| && ts[i].state != Sleeping ==> r[i] == ts[i]
  {
    seq(|ts|, i requires 0 <= i < |ts| => Wake(ts[i], now))
  }

  /** The wake-up pass turns exactly the due sleepers READY and changes nothing else. */
  lemma WakeAllWakesDue(ts: seq<Task>, now: int, i: int)
    requires 0 <= i < |ts|
    ensures var r := WakeAll(ts, now);
            (ts[i].state == Sleeping && ts[i].wakeTime <= now ==> r[i] == ts[i].(state := Ready))
            && (!(ts[i].state == Sleeping && ts[i].wakeTime <= now) ==> r[i] == ts[i])
  {
  }

  function Max(a: int, b: int): int
  {
    if a < b then b else a
  }

  /** One task's part of the aging pass: only the priority can change, and only for a
      READY task, by exactly one step, never below 1. */
  function Age(t: Task, now: int): (r: Task)
    ensures r.(priority := t.priority) == t
    ensures r.priority == t.priority || (t.state == Ready && r.priority == t.priority - 1 && r.priority >= 1)
  {
    if t.state == Ready && t.priority > 1 && now - t.lastRunTime > AGING_THRESHOLD
    then t.(priority := Max(t.priority - 1, 1))
    else t
  }

  /** `_apply_aging` over the whole table. */
  function AgeAll(ts: seq<Task>, now: int): (r: seq<Task>)
    ensures |r| == |ts|
    ensures forall i :: 0 <= i < |ts| ==> r[i].(priority := ts[i].priority) == ts[i]
    ensures forall i :: 0 <= i < |ts| ==> ts[i].priority - 1 <= r[i].priority <= ts[i].priority
  {
    seq(|ts|, i requires 0 <= i < |ts| => Age(ts[i], now))
  }

  /** Aging moves a READY task that waited past the threshold up exactly one step, never
      below 1, never the other way, and touches nothing but that priority. */
  lemma {:induction false} AgingStep(ts: seq<Task>, now: int, i: int)
    requires 0 <= i < |ts|
    ensures var r := AgeAll(ts, now);
            r[i].(priority := ts[i].priority) == ts[i]
            && (if ts[i].state == Ready && ts[i].priority > 1 && now - ts[i].lastRunTime > AGING_THRESHOLD
                then r[i].priority == ts[i].priority - 1 && r[i].priority >= 1
                else r[i].priority == ts[i].priority)
  {
  }

  /** Aging keeps every priority within its bounds. */
  lemma AgingKeepsPrioritiesSane(ts: seq<Task>, now: int)
    requires forall i :: 0 <= i < |ts| ==> PrioritySane(ts[i])
    ensures forall i :: 0 <= i < |AgeAll(ts, now)| ==> PrioritySane(AgeAll(ts, now)[i])
  {
  }

  /** The scheduler-independent part of `tick`: the clock moves on by one, due sleepers
      wake, and, while aging is enabled, waiting tasks age. */
  function BaseTickOf(s: SchedState, agingEnabled: bool): (r: SchedState)
    requires Wf(s)
    ensures Wf(r)
    ensures r.tickCount == s.tickCount + 1 && r.current == s.current && r.regs == s.regs
    ensures r.contextSwitches == s.contextSwitches && r.currentSlice == s.currentSlice
    ensures |r.tasks| == |s.tasks| && r.nextTaskId == s.nextTaskId
  {
    var now := s.tickCount + 1;
    var woken := WakeAll(s.tasks, now);
    s.(tickCount := now, tasks := if agingEnabled then AgeAll(woken, now) else woken)
  }

  /** What `get_scheduler_stats` reports. */
  datatype SchedulerStats = SchedulerStats(tickCount: nat, contextSwitches: nat, taskCount: nat, runningTask: Option<nat>)

  function StatsOf(s: SchedState): (r: SchedulerStats)
    requires Wf(s)
    ensures r.tickCount == s.tickCount && r.contextSwitches == s.contextSwitches
    ensures r.taskCount == |s.tasks| == s.nextTaskId - 1
    ensures r.runningTask == s.current
    ensures r.runningTask.Some? <==> exists i :: 0 <= i < |s.tasks| && s.tasks[i].state == Running
    ensures r.runningTask.Some? ==> HasTask(s, r.runningTask.value) && s.tasks[r.runningTask.value - 1].state == Running
  {
    if s.current.Some? then
      assert s.tasks[s.current.value - 1].state == Running;
      SchedulerStats(s.tickCount, s.contextSwitches, |s.tasks|, s.current)
    else
      SchedulerStats(s.tickCount, s.contextSwitches, |s.tasks|, None)
  }
}
