/** The RISC-V register file: x0..x31 and the pc, all 32-bit, with x0 hardwired to zero
    (section 2.1 of the RISC-V Unprivileged ISA manual), and one saved context slot. */
module RegisterFile {
  import opened Common

  const NUM_REGISTERS: nat := 32

  /** x2, the stack pointer by the RISC-V calling convention. */
  const SP: nat := 2

  /** The 32 general-purpose registers, each an unsigned 32-bit value. */
  type Bank = s: seq<Word> | |s| == 32 witness seq(32, _ => 0)

  /** What `save_context` returns: a copy of the registers and the pc. */
  datatype Context = Context(registers: Bank, pc: Word)

  /** The whole state of a register file. */
  datatype RegState = RegState(x: Bank, pc: Word, saved: Option<Context>)

  function ZeroBank(): (b: Bank)
    ensures forall n :: 0 <= n < NUM_REGISTERS ==> b[n] == 0
  {
    seq(NUM_REGISTERS, _ => 0)
  }

  /** The state after `__init__` and after `reset`. */
  function InitialRegs(): (r: RegState)
    ensures forall n :: IsRegister(n) ==> ReadReg(r, n) == Ok(0)
    ensures r.pc == 0 && r.saved == None
  {
    RegState(ZeroBank(), 0, None)
  }

  predicate IsRegister(n: int)
  {
    0 <= n < NUM_REGISTERS
  }

  /** `read(n)`: out-of-range numbers fail, x0 reads as zero whatever is stored. */
  function ReadReg(s: RegState, n: int): (r: Result<Word>)
    ensures r.Err? <==> !IsRegister(n)
    ensures r.Err? ==> r.error == InvalidRegister
    ensures n == 0 ==> r == Ok(0)
  {
    if !IsRegister(n) then Err(InvalidRegister)
    else if n == 0 then Ok(0)
    else Ok(s.x[n])
  }

  /** `write(n, v)`: out-of-range numbers fail, a write to x0 is discarded, any other
      register receives v masked to 32 bits. */
  function WriteReg(s: RegState, n: int, v: int): (r: Result<RegState>)
    ensures r.Err? <==> !IsRegister(n)
    ensures r.Err? ==> r.error == InvalidRegister
    ensures n == 0 ==> r == Ok(s)
    ensures r.Ok? ==> r.value.pc == s.pc && r.value.saved == s.saved
    ensures r.Ok? && n != 0 ==> ReadReg(r.value, n) == Ok(Mask32(v))
    ensures r.Ok? ==> forall m :: m != n ==> ReadReg(r.value, m) == ReadReg(s, m)
  {
    if !IsRegister(n) then Err(InvalidRegister)
    else if n == 0 then Ok(s)
    else Ok(s.(x := s.x[n := Mask32(v)]))
  }

  /** `set_pc(v)`: the pc receives v masked to 32 bits; nothing else changes. */
  function SetPcTo(s: RegState, v: int): (r: RegState)
    ensures r.pc == Mask32(v) && r.(pc := s.pc) == s
  {
    s.(pc := Mask32(v))
  }

  /** `save_context()`: the snapshot it returns, and the state in which that snapshot is
      recorded as the saved context. Live registers and pc are untouched, and restoring
      with no argument straight away changes nothing. */
  function SaveContextOf(s: RegState): (r: (Context, RegState))
    ensures r.0 == Context(s.x, s.pc) && r.1.saved == Some(r.0) && r.1.(saved := s.saved) == s
    ensures RestoreContextOf(r.1, None) == Ok(r.1)
  {
    var ctx := Context(s.x, s.pc);
    (ctx, s.(saved := Some(ctx)))
  }

  /** `restore_context(ctx)`: with no argument the recorded context is used, and with
      neither the call fails. The saved-context slot itself is left as it was. */
  function RestoreContextOf(s: RegState, ctx: Option<Context>): (r: Result<RegState>)
    ensures r.Err? <==> ctx.None? && s.saved.None?
    ensures r.Err? ==> r.error == NoSavedContext
    ensures r.Ok? ==> r.value.saved == s.saved
    ensures r.Ok? && ctx.Some? ==> r.value.x == ctx.value.registers && r.value.pc == ctx.value.pc
    ensures r.Ok? && ctx.None? ==> r.value.x == s.saved.value.registers && r.value.pc == s.saved.value.pc
  {
    if ctx.None? && s.saved.None? then Err(NoSavedContext)
    else
      var c := if ctx.Some? then ctx.value else s.saved.value;
      Ok(s.(x := c.registers, pc := c.pc))
  }

  /** Reading back: after `set_pc(v)`, `get_pc()` gives v masked, and no register moves. */
  lemma SetPcThenGetPc(s: RegState, v: int)
    ensures SetPcTo(s, v).pc == Mask32(v)
    ensures forall n :: ReadReg(SetPcTo(s, v), n) == ReadReg(s, n)
  {
  }

  /** A saved snapshot is a copy: whatever is written to the live registers and the pc
      after `save_context`, restoring with no argument brings back exactly the saved
      registers and pc. */
  lemma SnapshotSurvivesLaterWrites(s: RegState, n: int, v: int, p: int)
    requires IsRegister(n)
    ensures var (ctx, s1) := SaveContextOf(s);
            var s2 := SetPcTo(WriteReg(s1, n, v).value, p);
            ctx == Context(s.x, s.pc) && RestoreContextOf(s2, None) == Ok(s1)
  {
  }

  /** The register file as the simulator holds it: the `registers` list, the `pc` and
      `saved_context` fields, each replaced in place by the operations. */
  class Registers {
    var x: Bank
    var pc: Word
    var savedContext: Option<Context>

    function State(): RegState
      reads this
    {
      RegState(x, pc, savedContext)
    }

    constructor ()
      ensures State() == InitialRegs()
    {
      x := ZeroBank();
      pc := 0;
      savedContext := None;
    }

    /** `reset`: all 32 registers zero, pc zero, no saved context. */
    method Reset()
      modifies this
      ensures State() == InitialRegs()
      ensures forall n :: 0 <= n < NUM_REGISTERS ==> x[n] == 0
      ensures pc == 0 && savedContext == None
    {
      x := ZeroBank();
      pc := 0;
      savedContext := None;
    }

    method Read(n: int) returns (r: Result<Word>)
      ensures r == ReadReg(State(), n)
    {
      if n < 0 || n > 31 {
        return Err(InvalidRegister);
      }
      if n == 0 {
        return Ok(0);
      }
      r := Ok(x[n]);
    }

    method Write(n: int, v: int) returns (o: Outcome)
      modifies this
      ensures match WriteReg(old(State()), n, v)
              case Ok(s') => o == Pass && State() == s'
              case Err(e) => o == Fail(e) && State() == old(State())
    {
      if n < 0 || n > 31 {
        return Fail(InvalidRegister);
      }
      if n == 0 {
        return Pass;
      }
      x := x[n := Mask32(v)];
      o := Pass;
    }

    method GetPc() returns (r: Word)
      ensures r == State().pc
    {
      r := pc;
    }

    method SetPc(v: int)
      modifies this
      ensures State() == SetPcTo(old(State()), v)
    {
      pc := Mask32(v);
    }

    method SaveContext() returns (ctx: Context)
      modifies this
      ensures (ctx, State()) == SaveContextOf(old(State()))
    {
      ctx := Context(x, pc);
      savedContext := Some(ctx);
    }

    method RestoreContext(ctx: Option<Context>) returns (o: Outcome)
      modifies this
      ensures match RestoreContextOf(old(State()), ctx)
              case Ok(s') => o == Pass && State() == s'
              case Err(e) => o == Fail(e) && State() == old(State())
    {
      var c: Context;
      if ctx.None? {
        if savedContext.None? {
          return Fail(NoSavedContext);
        }
        c := savedContext.value;
      } else {
        c := ctx.value;
      }
      x := c.registers;
      pc := c.pc;
      o := Pass;
    }
  }
}
