/** The fetch/step facade of the simulator: program loading at 4-byte strides, the step
    that redirects to a pending interrupt, fetches a word, halts on the zero word and
    otherwise counts a cycle and advances the pc, and the bounded run loop. The opcode
    handler table is empty, so every non-zero word executes as a no-op. */
module Simulation {
  import opened Common
  import opened RegisterFile
  import opened MainMemory
  import opened Interrupts

  /** Everything `step` reads or writes. */
  datatype SimState = SimState(regs: RegState, mem: seq<Byte>, ints: IntState, running: bool, cycleCount: nat)

  /** The opcodes `_register_instruction_handlers` installs a handler for: none. */
  const INSTRUCTION_HANDLERS: set<int> := {}

  /** The state after `__init__` and after `reset` of a simulator whose memory has `size`
      bytes and whose interrupt table is `ints`. */
  function ResetSim(s: SimState): (r: SimState)
    ensures r.regs == InitialRegs() && r.mem == Zeros(|s.mem|) && r.ints == ResetOf(s.ints)
    ensures !r.running && r.cycleCount == 0
  {
    SimState(InitialRegs(), Zeros(|s.mem|), ResetOf(s.ints), false, 0)
  }

  /** The word writes of `load_program`, in order; the first write that fails stops the
      loop with the earlier words already stored. */
  function WriteWords(mem: seq<Byte>, program: seq<int>, a: int): (r: (seq<Byte>, Outcome))
    ensures |r.0| == |mem|
    ensures r.1.Fail? ==> r.1.error == OutOfBounds
  {
    if |program| == 0 then (mem, Pass)
    else
      var (m, o) := WriteWords(mem, program[..|program| - 1], a);
      if o.Fail? then (m, o)
      else
        match Store32(m, a + 4 * (|program| - 1), program[|program| - 1])
        case Ok(m') => (m', Pass)
        case Err(e) => (m, Fail(e))
  }

  /** `load_program(program, address)`: the words, then the pc set to the start address.
      A failing write raises before the pc is set. */
  function LoadProgramOf(s: SimState, program: seq<int>, a: int): (r: (SimState, Outcome))
    ensures r.1.Pass? ==> r.0.regs == SetPcTo(s.regs, a)
    ensures r.1.Fail? ==> r.0.regs == s.regs
    ensures r.0.ints == s.ints && r.0.running == s.running && r.0.cycleCount == s.cycleCount
  {
    var (m, o) := WriteWords(s.mem, program, a);
    if o.Fail? then (s.(mem := m), o) else (s.(mem := m, regs := SetPcTo(s.regs, a)), o)
  }

  /** The program fits iff every write succeeds: it is empty, or it starts at a valid
      address and its last byte, at a + 4|program| - 1, is valid too. */
  lemma {:induction false} WriteWordsSucceedsIffFits(mem: seq<Byte>, program: seq<int>, a: int)
    ensures WriteWords(mem, program, a).1.Pass? <==> |program| == 0 || (0 <= a && a + 4 * |program| <= |mem|)
  {
    if |program| > 0 {
      WriteWordsSucceedsIffFits(mem, program[..|program| - 1], a);
    }
  }

  /** A word read away from a span that a store left alone reads the same. */
  lemma WordOutsideStore(m: seq<Byte>, m': seq<Byte>, p: int, q: int)
    requires SameOutside(m, m', p, 4) && (q + 4 <= p || p + 4 <= q)
    ensures Load32(m', q) == Load32(m, q)
  {
  }

  /** After a successful load, word i of the program reads back, masked to 32 bits, from
      a + 4i. */
  lemma {:induction false} LoadedWordsReadBack(mem: seq<Byte>, program: seq<int>, a: int)
    requires WriteWords(mem, program, a).1.Pass?
    ensures forall i :: 0 <= i < |program| ==> Load32(WriteWords(mem, program, a).0, a + 4 * i) == Ok(Mask32(program[i]))
  {
    if |program| > 0 {
      var n := |program| - 1;
      var front := program[..n];
      assert WriteWords(mem, front, a).1.Pass?;
      LoadedWordsReadBack(mem, front, a);
      var m := WriteWords(mem, front, a).0;
      var m' := WriteWords(mem, program, a).0;
      assert Store32(m, a + 4 * n, program[n]) == Ok(m');
      assert SameOutside(m, m', a + 4 * n, 4);
      WriteWordThenRead(m, a + 4 * n, program[n]);
      forall i | 0 <= i < n
        ensures Load32(m', a + 4 * i) == Ok(Mask32(program[i]))
      {
        assert program[i] == front[i];
        assert Load32(m, a + 4 * i) == Ok(Mask32(front[i]));
        WordOutsideStore(m, m', a + 4 * n, a + 4 * i);
      }
    }
  }

  /** A successful load leaves every byte outside the program's range as it was. */
  lemma {:induction false} LoadLeavesRest(mem: seq<Byte>, program: seq<int>, a: int)
    requires WriteWords(mem, program, a).1.Pass?
    ensures SameOutside(mem, WriteWords(mem, program, a).0, a, 4 * |program|)
  {
    if |program| > 0 {
      var n := |program| - 1;
      LoadLeavesRest(mem, program[..n], a);
      assert Store32(WriteWords(mem, program[..n], a).0, a + 4 * n, program[n]) == Ok(WriteWords(mem, program, a).0);
    }
  }

  /** `_execute_instruction`: looks the opcode up in the handler table; with the table
      empty, no instruction changes anything. */
  function ExecuteOf(s: SimState, w: Word): (r: SimState)
    ensures r == s
  {
    s
  }

  /** `_handle_interrupt`: with an interrupt on offer, the context is saved and the pc set
      to that interrupt's handler address; the interrupt stays pending. */
  function HandleInterruptOf(s: SimState): (r: SimState)
    ensures r.mem == s.mem && r.ints == s.ints && r.running == s.running && r.cycleCount == s.cycleCount
    ensures Highest(s.ints).None? ==> r == s
    ensures Highest(s.ints).Some? ==>
              r.regs.x == s.regs.x && r.regs.pc == Mask32(Highest(s.ints).value.handlerAddress) &&
              r.regs.saved == Some(Context(s.regs.x, s.regs.pc))
  {
    match Highest(s.ints)
    case None => s
    case Some(i) =>
      var (_, saved) := SaveContextOf(s.regs);
      s.(regs := SetPcTo(saved, i.handlerAddress))
  }

  /** The address `step` will fetch from: the handler address of the offered interrupt,
      or else the pc. */
  function FetchAddress(s: SimState): (r: Word)
    ensures !HasPending(s.ints) ==> r == s.regs.pc
    ensures HasPending(s.ints) ==> Highest(s.ints).Some? && r == Mask32(Highest(s.ints).value.handlerAddress)
  {
    if HasPending(s.ints) then HandleInterruptOf(s).regs.pc else s.regs.pc
  }

  /** The first half of `step`: redirect to the offered interrupt if one is pending, which
      also overwrites the saved context with the interrupted registers and pc. */
  function RedirectOf(s: SimState): (r: SimState)
    ensures r.mem == s.mem && r.ints == s.ints && r.running == s.running && r.cycleCount == s.cycleCount
    ensures r.regs.pc == FetchAddress(s) && r.regs.x == s.regs.x
    ensures r.regs.saved == if HasPending(s.ints) then Some(Context(s.regs.x, s.regs.pc)) else s.regs.saved
  {
    if HasPending(s.ints) then HandleInterruptOf(s) else s
  }

  /** The second half of `step`: fetch at the pc, halt on the zero word, otherwise
      execute, count the cycle and move the pc on if the instruction left it alone. A
      fetch from an invalid address raises the error `read_word` raises. */
  function FetchExecuteOf(s: SimState): (r: (SimState, Result<bool>))
    ensures r.0.mem == s.mem && r.0.ints == s.ints && r.0.regs.x == s.regs.x && r.0.regs.saved == s.regs.saved
    ensures r.1.Err? <==> Load32(s.mem, s.regs.pc).Err?
    ensures r.1.Err? ==> r.0 == s && r.1.error == OutOfBounds
    ensures r.1 == Ok(false) <==> Load32(s.mem, s.regs.pc) == Ok(0)
    ensures r.1 == Ok(false) ==> r.0 == s.(running := false)
    ensures r.1 == Ok(true) ==> r.0 == s.(regs := SetPcTo(s.regs, s.regs.pc + 4), cycleCount := s.cycleCount + 1)
  {
    var pc := s.regs.pc;
    match Load32(s.mem, pc)
    case Err(e) => (s, Err(e))
    case Ok(w) =>
      if w == 0 then (s.(running := false), Ok(false))
      else
        var s2 := ExecuteOf(s, w).(cycleCount := s.cycleCount + 1);
        if pc == s2.regs.pc then (s2.(regs := SetPcTo(s2.regs, pc + 4)), Ok(true)) else (s2, Ok(true))
  }

  /** `step`: the new state and what the call returns. */
  function StepOf(s: SimState): (r: (SimState, Result<bool>))
    ensures r.0.mem == s.mem && r.0.ints == s.ints && r.0.regs.x == s.regs.x
    ensures r.1 == Ok(true) ==> s.running && r.0.running && r.0.cycleCount == s.cycleCount + 1
    ensures r.1 != Ok(true) ==> r.0.cycleCount == s.cycleCount
    ensures r.1 == Ok(false) ==> !r.0.running
  {
    if !s.running then (s, Ok(false)) else FetchExecuteOf(RedirectOf(s))
  }

  /** A stopped simulator does nothing and reports false. */
  lemma StepWhenStopped(s: SimState)
    requires !s.running
    ensures StepOf(s) == (s, Ok(false))
  {
  }

  /** The zero word halts: running becomes false, the cycle count and the registers
      (after any interrupt redirect) are untouched. */
  lemma StepHaltsOnZeroWord(s: SimState)
    requires s.running && Load32(s.mem, FetchAddress(s)) == Ok(0)
    ensures var (s', r) := StepOf(s);
            r == Ok(false) && !s'.running && s'.cycleCount == s.cycleCount && s'.mem == s.mem &&
            s'.regs.pc == FetchAddress(s) && s'.regs.x == s.regs.x
  {
  }

  /** A non-zero word counts one cycle and moves the pc 4 bytes past the fetch address,
      masked to 32 bits; registers, memory and interrupts are otherwise unchanged. */
  lemma StepAdvances(s: SimState)
    requires s.running && Load32(s.mem, FetchAddress(s)).Ok? && Load32(s.mem, FetchAddress(s)).value != 0
    ensures var (s', r) := StepOf(s);
            r == Ok(true) && s'.running && s'.cycleCount == s.cycleCount + 1 &&
            s'.regs.pc == Mask32(FetchAddress(s) + 4) && s'.regs.x == s.regs.x &&
            s'.mem == s.mem && s'.ints == s.ints
  {
  }

  /** A fetch from an invalid address raises, after the redirect, with nothing counted. */
  lemma StepFetchFault(s: SimState)
    requires s.running && Load32(s.mem, FetchAddress(s)).Err?
    ensures var (s', r) := StepOf(s);
            r == Err(OutOfBounds) && s'.running && s'.cycleCount == s.cycleCount && s'.regs.pc == FetchAddress(s)
  {
  }

  /** A pending interrupt on an enabled controller saves the context first and sends the
      fetch to its handler. */
  lemma StepTakesInterrupt(s: SimState)
    requires s.running && HasPending(s.ints)
    ensures Highest(s.ints).Some?
    ensures FetchAddress(s) == Mask32(Highest(s.ints).value.handlerAddress)
    ensures StepOf(s).0.regs.saved == Some(Context(s.regs.x, s.regs.pc))
  {
  }

  /** Since `step` never clears the interrupt it takes, an interrupt stays pending after a
      successful step, and the next step fetches from the same handler address again:
      once an interrupt is pending, execution never gets past its handler's first word. */
  lemma PendingInterruptCapturesExecution(s: SimState)
    requires s.running && HasPending(s.ints) && StepOf(s).1 == Ok(true)
    ensures HasPending(StepOf(s).0.ints) && StepOf(s).0.running
    ensures FetchAddress(StepOf(s).0) == FetchAddress(s)
  {
  }

  /** The body of `run`'s loop, with `budget` cycles left. */
  function RunLoop(s: SimState, budget: nat): (r: (SimState, Outcome))
    ensures r.0.mem == s.mem && r.0.ints == s.ints
    ensures !s.running || budget == 0 ==> r == (s, Pass)
    decreases budget
  {
    if !s.running || budget == 0 then (s, Pass)
    else
      var (s', res) := StepOf(s);
      match res
      case Err(e) => (s', Fail(e))
      case Ok(more) => if more then RunLoop(s', budget - 1) else (s', Pass)
  }

  /** `run(max_cycles)` for a given bound: running is set, then steps are taken until one
      reports false or the bound is reached; an error from `step` propagates. */
  function RunOf(s: SimState, maxCycles: nat): (r: (SimState, Outcome))
    ensures r.0.mem == s.mem && r.0.ints == s.ints
    ensures maxCycles == 0 ==> r == (s.(running := true), Pass)
  {
    RunLoop(s.(running := true), maxCycles)
  }

  /** Each loop iteration that continues has counted exactly one cycle, so the cycle
      count grows by at most the budget, and by exactly the budget when the loop ends
      with the simulator still running and no error. */
  lemma {:induction false} RunLoopCycles(s: SimState, budget: nat)
    ensures var (s', o) := RunLoop(s, budget);
            s.cycleCount <= s'.cycleCount <= s.cycleCount + budget &&
            (s.running && o.Pass? && s'.running ==> s'.cycleCount == s.cycleCount + budget) &&
            |s'.mem| == |s.mem| && s'.mem == s.mem && s'.ints == s.ints
    decreases budget
  {
    if s.running && budget > 0 {
      var (s1, res) := StepOf(s);
      if res == Ok(true) {
        RunLoopCycles(s1, budget - 1);
      }
    }
  }

  /** `run` performs at most `max_cycles` successful steps. */
  lemma RunBounded(s: SimState, maxCycles: nat)
    ensures var (s', o) := RunOf(s, maxCycles);
            s.cycleCount <= s'.cycleCount <= s.cycleCount + maxCycles &&
            (o.Pass? && s'.running ==> s'.cycleCount == s.cycleCount + maxCycles)
  {
    RunLoopCycles(s.(running := true), maxCycles);
  }

  /** The simulator object: a register file, a 1 MiB memory and an interrupt controller,
      with the running flag and the cycle counter. */
  class Simulator {
    const regs: Registers
    const mem: Memory
    const intc: InterruptController
    var running: bool
    var cycleCount: nat

    ghost predicate Valid()
      reads this, mem, intc
    {
      mem.Valid() && intc.Valid()
    }

    function Model(): SimState
      reads this, regs, mem, mem.bytes, intc
    {
      SimState(regs.State(), mem.Contents(), intc.State(), running, cycleCount)
    }

    /** `__init__`: fresh register file, zeroed 1 MiB memory, the standard interrupts,
        stopped, no cycles counted. */
    constructor ()
      ensures Valid() && fresh(regs) && fresh(mem) && fresh(mem.bytes) && fresh(intc)
      ensures Model() == SimState(InitialRegs(), Zeros(DEFAULT_SIZE), InitialInterrupts(), false, 0)
    {
      regs := new Registers();
      mem := new Memory(DEFAULT_SIZE);
      intc := new InterruptController();
      running := false;
      cycleCount := 0;
    }

    /** `reset`: each component reset, the counter zeroed and the simulator stopped. */
    method Reset()
      requires Valid()
      modifies this, regs, mem, intc
      ensures Valid() && Model() == ResetSim(old(Model()))
    {
      regs.Reset();
      mem.Reset();
      intc.Reset();
      cycleCount := 0;
      running := false;
    }

    /** `load_program`: one `write_word` per instruction at address + 4i, then `set_pc`. */
    method LoadProgram(program: seq<int>, address: int) returns (o: Outcome)
      requires Valid()
      modifies regs, mem.bytes
      ensures Valid() && (Model(), o) == LoadProgramOf(old(Model()), program, address)
    {
      var i := 0;
      while i < |program|
        invariant 0 <= i <= |program| && Valid()
        invariant WriteWords(old(mem.Contents()), program[..i], address) == (mem.Contents(), Pass)
        invariant regs.State() == old(regs.State())
        invariant Model() == old(Model()).(mem := mem.Contents())
      {
        o := mem.WriteWord(address + i * 4, program[i]);
        assert program[..i + 1][..i] == program[..i];
        if o.Fail? {
          assert program[..i + 1][..i] == program[..i];
          PrefixFailureSticks(old(mem.Contents()), program, address, i + 1);
          return;
        }
        i := i + 1;
      }
      assert program[..i] == program;
      regs.SetPc(address);
      o := Pass;
    }

    /** `step`. */
    method Step() returns (r: Result<bool>)
      requires Valid()
      modifies this, regs
      ensures Valid() && (Model(), r) == StepOf(old(Model()))
    {
      if !running {
        return Ok(false);
      }
      var pending := intc.HasPendingInterrupts();
      if pending {
        HandleInterrupt();
      }
      r := FetchExecute();
    }

    /** The part of `step` after the interrupt check. */
    method FetchExecute() returns (r: Result<bool>)
      requires Valid()
      modifies this, regs
      ensures Valid() && (Model(), r) == FetchExecuteOf(old(Model()))
    {
      var pc := regs.GetPc();
      var fetched := mem.ReadWord(pc);
      if fetched.Err? {
        return Err(fetched.error);
      }
      if fetched.value == 0 {
        running := false;
        return Ok(false);
      }
      ExecuteInstruction(fetched.value);
      cycleCount := cycleCount + 1;
      var after := regs.GetPc();
      if pc == after {
        regs.SetPc(pc as int + 4);
      }
      r := Ok(true);
    }

    /** `_execute_instruction`: no handler is registered for any opcode, so nothing runs. */
    method ExecuteInstruction(w: Word)
      requires Valid()
      ensures Model() == ExecuteOf(Model(), w)
    {
      var opcode := w % 0x80;
      if opcode in INSTRUCTION_HANDLERS {
        assert false;
      }
    }

    /** `_handle_interrupt`. */
    method HandleInterrupt()
      requires Valid()
      modifies regs
      ensures Valid() && Model() == HandleInterruptOf(old(Model()))
    {
      var interrupt := intc.GetHighestPriorityInterrupt();
      if interrupt.Some? {
        var _ := regs.SaveContext();
        regs.SetPc(interrupt.value.handlerAddress);
      }
    }

    /** `run(max_cycles)` with a bound (the pacing sleep is not modelled). */
    method Run(maxCycles: nat) returns (o: Outcome)
      requires Valid()
      modifies this, regs
      ensures Valid() && (Model(), o) == RunOf(old(Model()), maxCycles)
    {
      running := true;
      var cycle := 0;
      while running && cycle < maxCycles
        invariant 0 <= cycle <= maxCycles && Valid()
        invariant RunLoop(Model(), maxCycles - cycle) == RunOf(old(Model()), maxCycles)
        decreases maxCycles - cycle
      {
        ghost var before := Model();
        var more := Step();
        assert RunLoop(before, maxCycles - cycle) ==
               match more
               case Err(e) => (Model(), Fail(e))
               case Ok(m) => if m then RunLoop(Model(), maxCycles - cycle - 1) else (Model(), Pass);
        if more.Err? {
          return Fail(more.error);
        }
        if !more.value {
          return Pass;
        }
        cycle := cycle + 1;
      }
      o := Pass;
    }

    /** `trigger_interrupt`: passed on to the controller. */
    method TriggerInterrupt(id: int) returns (o: Outcome)
      requires Valid()
      modifies intc
      ensures Valid()
      ensures match Trigger(old(Model()).ints, id)
              case Ok(t) => o == Pass && Model() == old(Model()).(ints := t)
              case Err(e) => o == Fail(e) && Model() == old(Model())
    {
      o := intc.TriggerInterrupt(id);
    }
  }

  /** Once a write fails, the longer prefixes fail with the same memory. */
  lemma {:induction false} PrefixFailureSticks(mem: seq<Byte>, program: seq<int>, a: int, n: nat)
    requires n <= |program| && WriteWords(mem, program[..n], a).1.Fail?
    ensures WriteWords(mem, program, a) == WriteWords(mem, program[..n], a)
    decreases |program| - n
  {
    if n < |program| {
      assert program[..n + 1][..n] == program[..n];
      PrefixFailureSticks(mem, program, a, n + 1);
    } else {
      assert program[..n] == program;
    }
  }
}
