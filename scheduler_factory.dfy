/** `create_scheduler`: picks one of the three policies by name. */
module SchedulerFactory {
  import opened Common
  import opened RegisterFile
  import opened SchedulerBase
  import opened Scheduling

  /** The time slice round-robin gets when the caller gives none. */
  const DEFAULT_TIME_SLICE: int := 10

  /** The policy a scheduler-type name selects; the time slice only matters for
      round-robin, and any other name is an error. */
  function PolicyFor(schedulerType: string, timeSlice: int): (r: Result<Policy>)
    ensures r.Err? <==> schedulerType !in {"priority", "round-robin", "fcfs"}
    ensures r.Err? ==> r.error == UnknownSchedulerType
    ensures r.Ok? && r.value.RoundRobin? ==> r.value.timeSlice == timeSlice
  {
    if schedulerType == "priority" then Ok(Priority)
    else if schedulerType == "round-robin" then Ok(RoundRobin(timeSlice))
    else if schedulerType == "fcfs" then Ok(Fcfs)
    else Err(UnknownSchedulerType)
  }

  /** The name under which the factory knows a policy. */
  function TypeName(p: Policy): string
  {
    match p
    case Priority => "priority"
    case RoundRobin(_) => "round-robin"
    case Fcfs => "fcfs"
  }

  /** Every policy is reachable by its name, and every name the factory accepts is the name
      of the policy it returns: the two are inverse. */
  lemma NameRoundTrip(p: Policy, n: string, timeSlice: int)
    ensures PolicyFor(TypeName(p), if p.RoundRobin? then p.timeSlice else timeSlice) == Ok(p)
    ensures PolicyFor(n, timeSlice).Ok? ==> TypeName(PolicyFor(n, timeSlice).value) == n
  {
  }

  /** `create_scheduler(type, simulator, time_slice)`: a fresh scheduler with no tasks over
      the simulator's register file, or an error for an unknown type. */
  method CreateScheduler(schedulerType: string, regs: Registers, timeSlice: int) returns (r: Result<Scheduler>)
    ensures match PolicyFor(schedulerType, timeSlice)
            case Ok(p) =>
              r.Ok? && fresh(r.value) && r.value.regs == regs && r.value.policy == p
              && r.value.Model() == InitialSched(regs.State()) && r.value.Valid()
            case Err(e) => r == Err(e)
  {
    match PolicyFor(schedulerType, timeSlice)
    case Ok(p) =>
      var sched := new Scheduler(regs, p);
      r := Ok(sched);
    case Err(e) =>
      r := Err(e);
  }
}
