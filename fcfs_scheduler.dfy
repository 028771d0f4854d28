/** The first-come, first-served policy: non-preemptive; when the processor is free the
    READY task that last ran longest ago (ties to the earliest created) gets it. */
module FcfsScheduler {
  import opened Common
  import opened SchedulerBase

  /** `_find_oldest_ready_task`: Python's `min` by last run time over the READY tasks in
      table order, so a tie goes to the lowest id. */
  function OldestReady(ts: seq<Task>): (r: Option<nat>)
    requires IdsInOrder(ts)
    ensures r.None? <==> forall i :: 0 <= i < |ts| ==> ts[i].state != Ready
    ensures r.Some? ==> 1 <= r.value <= |ts| && ts[r.value - 1].state == Ready
    ensures r.Some? ==> forall i :: 0 <= i < |ts| && ts[i].state == Ready ==> ts[r.value - 1].lastRunTime <= ts[i].lastRunTime
    ensures r.Some? ==> forall i :: 0 <= i < r.value - 1 && ts[i].state == Ready ==> ts[r.value - 1].lastRunTime < ts[i].lastRunTime
  {
    match ArgMinFirst(ts, (t: Task) => t.state == Ready, (t: Task) => t.lastRunTime)
    case None => None
    case Some(i) => Some(ts[i].id)
  }

  /** `schedule` of the FCFS policy: a RUNNING current task keeps the processor and nothing
      changes; otherwise switch to the oldest READY task, or go idle when nothing is READY.
      The result is the current task afterwards. */
  function FcfsScheduleOf(s: SchedState): (r: (SchedState, Option<nat>))
    requires Wf(s)
    ensures Wf(r.0) && r.1 == r.0.current
  {
    if s.current.Some? && s.tasks[s.current.value - 1].state == Running then (s, s.current)
    else
      var next := OldestReady(s.tasks);
      var s' := if next.Some? || s.current.Some? then ContextSwitchOf(s, next) else s;
      (s', s'.current)
  }

  /** Non-preemptive: while there is a current task, `schedule` changes nothing at all. */
  lemma FcfsKeepsCurrent(s: SchedState)
    requires Wf(s) && s.current.Some?
    ensures FcfsScheduleOf(s) == (s, s.current)
  {
  }

  /** With the processor free, `schedule` hands it to the oldest READY task, counting one
      switch, and stays idle without a switch when nothing is READY. */
  lemma FcfsPicksOldest(s: SchedState)
    requires Wf(s) && s.current.None?
    ensures var (s', r) := FcfsScheduleOf(s);
            r == OldestReady(s.tasks)
            && (r.Some? ==> s'.contextSwitches == s.contextSwitches + 1)
            && (r.None? ==> s' == s)
  {
  }
}
