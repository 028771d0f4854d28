/** The priority-based preemptive policy: the READY task with the smallest priority value
    runs, and a tick preempts the current task when a strictly more urgent one is READY. */
module PriorityScheduler {
  import opened Common
  import opened SchedulerBase

  /** `_find_highest_priority_task`: Python's `min` by priority over the READY tasks in
      table order, so a tie goes to the lowest id. */
  function HighestPriorityReady(ts: seq<Task>): (r: Option<nat>)
    requires IdsInOrder(ts)
    ensures r.None? <==> forall i :: 0 <= i < |ts| ==> ts[i].state != Ready
    ensures r.Some? ==> 1 <= r.value <= |ts| && ts[r.value - 1].state == Ready
    ensures r.Some? ==> forall i :: 0 <= i < |ts| && ts[i].state == Ready ==> ts[r.value - 1].priority <= ts[i].priority
    ensures r.Some? ==> forall i :: 0 <= i < r.value - 1 && ts[i].state == Ready ==> ts[r.value - 1].priority < ts[i].priority
  {
    match ArgMinFirst(ts, (t: Task) => t.state == Ready, (t: Task) => t.priority)
    case None => None
    case Some(i) => Some(ts[i].id)
  }

  /** `schedule` of the priority policy: switch to the selected task if it is not the
      current one, go idle when nothing is READY, and return the selected task (which
      is the current task afterwards). */
  function PriorityScheduleOf(s: SchedState): (r: (SchedState, Option<nat>))
    requires Wf(s)
    ensures Wf(r.0)
  {
    var next := HighestPriorityReady(s.tasks);
    if next.Some? then
      (if s.current != next then ContextSwitchOf(s, next) else s, next)
    else
      var s' := if s.current.Some? then ContextSwitchOf(s, None) else s;
      (s', s'.current)
  }

  /** After `schedule` the selected task is current, and a switch was counted exactly
      when the current task changed. */
  lemma PriorityScheduleRunsSelected(s: SchedState)
    requires Wf(s)
    ensures var (s', r) := PriorityScheduleOf(s);
            r == HighestPriorityReady(s.tasks) && s'.current == r
            && s'.contextSwitches == s.contextSwitches + (if r != s.current then 1 else 0)
  {
  }

  /** The current task is RUNNING, hence never among the READY candidates: whenever some
      task is READY, `schedule` switches away from the current one. */
  lemma {:induction false} PrioritySwitchesAway(s: SchedState, i: int)
    requires Wf(s) && 0 <= i < |s.tasks| && s.tasks[i].state == Ready
    ensures PriorityScheduleOf(s).1 != s.current
    ensures PriorityScheduleOf(s).0.contextSwitches == s.contextSwitches + 1
  {
    var next := HighestPriorityReady(s.tasks);
    assert next.Some?;
    if s.current == next {
      assert false;
    }
  }

  /** `_check_preemption` of the priority policy: with a current task, reschedule when the
      best READY priority is strictly smaller than the current task's. */
  function PriorityPreemptOf(s: SchedState): (r: SchedState)
    requires Wf(s)
    ensures Wf(r)
  {
    if s.current.None? then s
    else
      var best := HighestPriorityReady(s.tasks);
      if best.Some? && s.tasks[best.value - 1].priority < s.tasks[s.current.value - 1].priority
      then PriorityScheduleOf(s).0
      else s
  }

  /** When a READY task is strictly more urgent than the current one, the check preempts
      and the best READY task takes over. */
  lemma {:induction false} PreemptsWhenStrictlyBetter(s: SchedState, i: int)
    requires Wf(s) && s.current.Some?
    requires 0 <= i < |s.tasks| && s.tasks[i].state == Ready
    requires s.tasks[i].priority < s.tasks[s.current.value - 1].priority
    ensures PriorityPreemptOf(s).current == HighestPriorityReady(s.tasks) != s.current
  {
    var best := HighestPriorityReady(s.tasks);
    assert s.tasks[best.value - 1].priority <= s.tasks[i].priority;
    PrioritySwitchesAway(s, i);
  }

  /** When no READY task is strictly more urgent than the current one (ties included),
      the check changes nothing. */
  lemma {:induction false} NoPreemptionWithoutBetter(s: SchedState)
    requires Wf(s) && s.current.Some?
    requires forall i :: 0 <= i < |s.tasks| && s.tasks[i].state == Ready
               ==> s.tasks[s.current.value - 1].priority <= s.tasks[i].priority
    ensures PriorityPreemptOf(s) == s
  {
  }

  /** Without a current task there is nothing to preempt. */
  lemma NoPreemptionWhenIdle(s: SchedState)
    requires Wf(s) && s.current.None?
    ensures PriorityPreemptOf(s) == s
  {
  }
}
