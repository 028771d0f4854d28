/** The round-robin policy with time slicing: READY tasks take turns in id order, and the
    current task gives up the processor when its slice of ticks is used up. */
module RoundRobinScheduler {
  import opened Common
  import opened RegisterFile
  import opened SchedulerBase

  /** The ids of the READY tasks, in table order. Because the table is in id order the
      list is already ascending (ReadyIdsAscending), so the `sorted` the source applies
      leaves it as it is. */
  function ReadyIds(ts: seq<Task>): (r: seq<nat>)
    ensures |r| <= |ts|
    ensures |r| == 0 <==> forall i :: 0 <= i < |ts| ==> ts[i].state != Ready
  {
    if |ts| == 0 then []
    else
      var last := ts[|ts| - 1];
      ReadyIds(ts[..|ts| - 1]) + (if last.state == Ready then [last.id] else [])
  }

  /** Task x exists and is READY. */
  predicate IsReadyId(ts: seq<Task>, x: int)
  {
    1 <= x <= |ts| && ts[x - 1].state == Ready
  }

  predicate Ascending(xs: seq<nat>)
  {
    forall k, l :: 0 <= k < l < |xs| ==> xs[k] < xs[l]
  }

  /** Exactly the READY tasks' ids are listed. */
  lemma {:induction false} ReadyIdsListReady(ts: seq<Task>)
    requires IdsInOrder(ts)
    ensures forall x :: x in ReadyIds(ts) <==> IsReadyId(ts, x)
  {
    if |ts| > 0 {
      var init := ts[..|ts| - 1];
      var last := ts[|ts| - 1];
      assert IdsInOrder(init);
      ReadyIdsListReady(init);
      var pre := ReadyIds(init);
      assert ReadyIds(ts) == pre + (if last.state == Ready then [last.id] else []);
      forall x
        ensures x in ReadyIds(ts) <==> IsReadyId(ts, x)
      {
        if 1 <= x < |ts| {
          assert ts[x - 1] == init[x - 1];
        }
      }
    }
  }

  /** The list is strictly ascending. */
  lemma {:induction false} ReadyIdsAscending(ts: seq<Task>)
    requires IdsInOrder(ts)
    ensures Ascending(ReadyIds(ts))
  {
    if |ts| > 0 {
      var init := ts[..|ts| - 1];
      var last := ts[|ts| - 1];
      assert IdsInOrder(init);
      ReadyIdsAscending(init);
      ReadyIdsListReady(init);
      var pre := ReadyIds(init);
      var r := ReadyIds(ts);
      assert r == pre + (if last.state == Ready then [last.id] else []);
      forall k, l | 0 <= k < l < |r|
        ensures r[k] < r[l]
      {
        if l < |pre| {
          assert r[k] == pre[k] && r[l] == pre[l];
        } else {
          assert r[k] == pre[k] && pre[k] in pre;
        }
      }
    }
  }

  /** The first element of an ascending list is its minimum. */
  lemma HeadIsLeast(xs: seq<nat>, y: nat)
    requires Ascending(xs) && y in xs
    ensures xs[0] <= y
  {
  }

  /** In an ascending list, after the element at idx and before any larger member comes
      the element at idx + 1, and nothing lies strictly between the two. */
  lemma {:induction false} SuccessorInAscending(xs: seq<nat>, idx: nat, y: nat)
    requires Ascending(xs) && idx < |xs| && y in xs && xs[idx] < y
    ensures idx + 1 < |xs| && xs[idx] < xs[idx + 1] <= y
    ensures forall z :: xs[idx] < z < xs[idx + 1] ==> z !in xs
  {
    var q :| 0 <= q < |xs| && xs[q] == y;
    assert idx < q;
    forall z | xs[idx] < z < xs[idx + 1]
      ensures z !in xs
    {
      forall p | 0 <= p < |xs|
        ensures xs[p] != z
      {
        if p > idx {
          assert xs[idx + 1] <= xs[p];
        }
      }
    }
  }

  /** Stepping round a list of n elements with `(i + 1) % n`. */
  lemma WrapIndex(i: nat, n: nat)
    requires i < n
    ensures (i + 1) % n == if i + 1 < n then i + 1 else 0
  {
  }

  /** `list.index`: the position of x in xs. */
  function IndexOf(xs: seq<nat>, x: nat): (r: nat)
    requires x in xs
    ensures r < |xs| && xs[r] == x
    ensures forall k :: 0 <= k < r ==> xs[k] != x
  {
    if xs[0] == x then 0 else 1 + IndexOf(xs[1..], x)
  }

  /** `_find_next_task`: nothing when no task is READY; the READY id after the current
      one, wrapping round, when the current task is itself READY; otherwise (no current
      task, or a current task that is not READY) the smallest READY id. */
  function NextRoundRobin(ts: seq<Task>, current: Option<nat>): (r: Option<nat>)
    requires IdsInOrder(ts)
    ensures r.Some? ==> IsReadyId(ts, r.value)
  {
    var ids := ReadyIds(ts);
    ReadyIdsListReady(ts);
    if |ids| == 0 then None
    else if current.Some? && current.value in ids then
      var k := (IndexOf(ids, current.value) + 1) % |ids|;
      assert ids[k] in ids;
      Some(ids[k])
    else
      assert ids[0] in ids;
      Some(ids[0])
  }

  /** The search comes back empty exactly when no task is READY. */
  lemma NoneIffNothingReady(ts: seq<Task>, current: Option<nat>)
    requires IdsInOrder(ts)
    ensures NextRoundRobin(ts, current).None? <==> forall i :: 0 <= i < |ts| ==> ts[i].state != Ready
  {
    ReadyIdsListReady(ts);
    if exists i :: 0 <= i < |ts| && ts[i].state == Ready {
      var i :| 0 <= i < |ts| && ts[i].state == Ready;
      assert IsReadyId(ts, i + 1);
    }
  }

  /** With no current task, or a current task that is not READY, the search starts from
      the smallest READY id. */
  lemma {:induction false} StartsFromSmallest(ts: seq<Task>, current: Option<nat>)
    requires IdsInOrder(ts)
    requires current.None? || !IsReadyId(ts, current.value)
    ensures var r := NextRoundRobin(ts, current);
            r.Some? ==> forall i :: 0 <= i < |ts| && ts[i].state == Ready ==> r.value <= i + 1
  {
    var ids := ReadyIds(ts);
    ReadyIdsListReady(ts);
    ReadyIdsAscending(ts);
    var r := NextRoundRobin(ts, current);
    forall i | 0 <= i < |ts| && ts[i].state == Ready
      ensures r.Some? && r.value <= i + 1
    {
      assert IsReadyId(ts, i + 1);
      assert r.value == ids[0];
      HeadIsLeast(ids, i + 1);
    }
  }

  /** When the current task is READY and some READY task has a larger id, the turn passes
      to the next larger READY id. */
  lemma {:induction false} RoundRobinRotates(ts: seq<Task>, c: nat, j: int)
    requires IdsInOrder(ts) && IsReadyId(ts, c)
    requires c <= j < |ts| && ts[j].state == Ready
    ensures var r := NextRoundRobin(ts, Some(c));
            r.Some? && c < r.value && forall m :: c <= m < r.value - 1 ==> ts[m].state != Ready
  {
    var ids := ReadyIds(ts);
    ReadyIdsListReady(ts);
    ReadyIdsAscending(ts);
    var idx := IndexOf(ids, c);
    assert IsReadyId(ts, j + 1);
    SuccessorInAscending(ids, idx, j + 1);
    WrapIndex(idx, |ids|);
    var r := NextRoundRobin(ts, Some(c));
    assert r.value == ids[idx + 1];
    forall m | c <= m < r.value - 1
      ensures ts[m].state != Ready
    {
      assert !IsReadyId(ts, m + 1);
    }
  }

  /** When the current task is READY and no READY task has a larger id, the turn wraps
      round to the smallest READY id. */
  lemma {:induction false} RoundRobinWraps(ts: seq<Task>, c: nat)
    requires IdsInOrder(ts) && IsReadyId(ts, c)
    requires forall j :: c <= j < |ts| ==> ts[j].state != Ready
    ensures var r := NextRoundRobin(ts, Some(c));
            r.Some? && forall i :: 0 <= i < |ts| && ts[i].state == Ready ==> r.value <= i + 1
  {
    var ids := ReadyIds(ts);
    ReadyIdsListReady(ts);
    ReadyIdsAscending(ts);
    var idx := IndexOf(ids, c);
    forall k | 0 <= k < |ids|
      ensures ids[k] <= c
    {
      assert ids[k] in ids;
      assert IsReadyId(ts, ids[k]);
    }
    assert ids[|ids| - 1] <= c;
    assert idx == |ids| - 1;
    WrapIndex(idx, |ids|);
    var r := NextRoundRobin(ts, Some(c));
    assert r.value == ids[0];
    forall i | 0 <= i < |ts| && ts[i].state == Ready
      ensures r.value <= i + 1
    {
      assert IsReadyId(ts, i + 1);
      HeadIsLeast(ids, i + 1);
    }
  }

  /** The current task is RUNNING, never READY, so in every reachable state the search
      starts again from the smallest READY id instead of rotating. */
  lemma RoundRobinRestartsFromLowest(s: SchedState)
    requires Wf(s)
    ensures var r := NextRoundRobin(s.tasks, s.current);
            r.Some? ==> forall i :: 0 <= i < |s.tasks| && s.tasks[i].state == Ready ==> r.value <= i + 1
  {
    StartsFromSmallest(s.tasks, s.current);
  }

  /** `schedule` of the round-robin policy: switch to the selected task and start a new
      slice only if it is not the current one, go idle when nothing is READY, and return
      the selected task. */
  function RoundRobinScheduleOf(s: SchedState): (r: (SchedState, Option<nat>))
    requires Wf(s)
    ensures Wf(r.0)
  {
    var next := NextRoundRobin(s.tasks, s.current);
    if next.Some? then
      (if s.current != next then ContextSwitchOf(s, next).(currentSlice := 0) else s, next)
    else
      var s' := if s.current.Some? then ContextSwitchOf(s, None) else s;
      (s', s'.current)
  }

  /** After `schedule` the selected task is current. A new slice starts (the counter goes
      back to zero) exactly when a task other than the current one was selected; going
      idle, or keeping the current task, leaves the counter alone. A change of task counts
      one switch, and keeping the current task changes nothing at all. */
  lemma RoundRobinScheduleRunsSelected(s: SchedState)
    requires Wf(s)
    ensures var (s', r) := RoundRobinScheduleOf(s);
            r == NextRoundRobin(s.tasks, s.current) && s'.current == r
            && (r.Some? && r != s.current ==> s'.currentSlice == 0)
            && (!(r.Some? && r != s.current) ==> s'.currentSlice == s.currentSlice)
            && (r != s.current ==> s'.contextSwitches == s.contextSwitches + 1)
            && (r == s.current ==> s' == s)
  {
  }

  /** The round-robin part of `tick`, after the shared part: with a current task the
      slice counter goes up, and when it reaches the time slice it is reset and the next
      task is scheduled. */
  function RoundRobinSliceOf(s: SchedState, timeSlice: int): (r: SchedState)
    requires Wf(s)
    ensures Wf(r)
  {
    if s.current.None? then s
    else
      var s1 := s.(currentSlice := s.currentSlice + 1);
      if s1.currentSlice >= timeSlice then RoundRobinScheduleOf(s1.(currentSlice := 0)).0 else s1
  }

  /** With a time slice of at least one tick, the slice counter stays below the time slice
      across a tick and across `schedule`. */
  lemma SliceStaysBelow(s: SchedState, timeSlice: int)
    requires Wf(s) && timeSlice >= 1 && s.currentSlice < timeSlice
    ensures RoundRobinSliceOf(s, timeSlice).currentSlice < timeSlice
    ensures RoundRobinScheduleOf(s).0.currentSlice < timeSlice
  {
  }

  /** A slice runs out after exactly `timeSlice` ticks with a current task: one tick short
      of that, the counter just advances and nobody is switched. */
  lemma SliceNotYetExpired(s: SchedState, timeSlice: int)
    requires Wf(s) && s.current.Some? && s.currentSlice + 1 < timeSlice
    ensures RoundRobinSliceOf(s, timeSlice) == s.(currentSlice := s.currentSlice + 1)
  {
  }

  /** When the slice runs out while some task is READY, the current task goes back to
      READY with the registers, the pc and the tick it ran at saved, the smallest READY id
      takes over with a fresh slice, and one switch is counted. */
  lemma {:induction false} SliceExpiryHandsOver(s: SchedState, timeSlice: int)
    requires Wf(s) && s.current.Some? && s.currentSlice + 1 >= timeSlice
    requires exists i :: 0 <= i < |s.tasks| && s.tasks[i].state == Ready
    ensures var r := RoundRobinSliceOf(s, timeSlice);
            var c := s.current.value;
            r.tasks[c - 1] == s.tasks[c - 1].(state := Ready, context := Some(Context(s.regs.x, s.regs.pc)),
                                              lastRunTime := s.tickCount)
            && r.current.Some? && IsReadyId(s.tasks, r.current.value)
            && (forall i :: 0 <= i < |s.tasks| && s.tasks[i].state == Ready ==> r.current.value <= i + 1)
            && r.currentSlice == 0 && r.contextSwitches == s.contextSwitches + 1
  {
    var s0 := s.(currentSlice := 0);
    NoneIffNothingReady(s0.tasks, s0.current);
    RoundRobinRestartsFromLowest(s0);
    var next := NextRoundRobin(s0.tasks, s0.current);
    assert RoundRobinSliceOf(s, timeSlice) == ContextSwitchOf(s0, next).(currentSlice := 0);
    ContextSwitchSavesOutgoing(s0, next);
  }

  /** When the slice runs out and no other task is READY, the current task is switched
      out to READY, with its registers, pc and tick saved, and nothing runs. Later slice
      accounting never starts it again: with no current task the round-robin part of
      `tick` does nothing. */
  lemma {:induction false} LoneTaskGoesIdleAtExpiry(s: SchedState, timeSlice: int)
    requires Wf(s) && s.current.Some? && s.currentSlice + 1 >= timeSlice
    requires forall i :: 0 <= i < |s.tasks| ==> s.tasks[i].state != Ready
    ensures var r := RoundRobinSliceOf(s, timeSlice);
            var c := s.current.value;
            r.tasks[c - 1] == s.tasks[c - 1].(state := Ready, context := Some(Context(s.regs.x, s.regs.pc)),
                                              lastRunTime := s.tickCount)
            && r.current.None? && r.currentSlice == 0 && r.contextSwitches == s.contextSwitches + 1
            && RoundRobinSliceOf(r, timeSlice) == r
  {
    var s0 := s.(currentSlice := 0);
    NoneIffNothingReady(s0.tasks, s0.current);
    assert RoundRobinSliceOf(s, timeSlice) == ContextSwitchOf(s0, None);
    ContextSwitchSavesOutgoing(s0, None);
  }
}
