/** The interrupt controller: a table of interrupts in registration order, each with a
    pending flag, a global enable mask, and the query for the pending interrupt of least
    priority value (a lower value is more urgent). */
module Interrupts {
  import opened Common

  /** Interrupt ids of the machine timer, machine external and machine software
      interrupts (their cause numbers in the RISC-V privileged architecture). */
  const TIMER_INTERRUPT: int := 7
  const EXTERNAL_INTERRUPT: int := 11
  const SOFTWARE_INTERRUPT: int := 3

  /** The `Interrupt` descriptor. */
  datatype Interrupt = Interrupt(id: int, priority: int, handlerAddress: int, description: string, pending: bool)

  /** The controller's state. The `interrupts` dict keyed by id is held as its values in
      insertion order, which is the order `any` and `min` visit them in. */
  datatype IntState = IntState(table: seq<Interrupt>, enabled: bool)

  /** No id appears twice: the table came from a dict. */
  predicate DistinctIds(s: seq<Interrupt>)
  {
    forall i, j :: 0 <= i < j < |s| ==> s[i].id != s[j].id
  }

  /** The ids of the table, in insertion order (the dict's keys). */
  function Ids(s: seq<Interrupt>): (r: seq<int>)
    ensures |r| == |s| && forall i :: 0 <= i < |s| ==> r[i] == s[i].id
  {
    seq(|s|, i requires 0 <= i < |s| => s[i].id)
  }

  /** Position of the entry with this id, if there is one. */
  function Find(s: seq<Interrupt>, id: int): (r: Option<nat>)
    ensures r.None? <==> forall i :: 0 <= i < |s| ==> s[i].id != id
    ensures r.Some? ==> r.value < |s| && s[r.value].id == id
  {
    if |s| == 0 then None
    else if s[|s| - 1].id == id then Some(|s| - 1)
    else Find(s[..|s| - 1], id)
  }

  /** `self.interrupts.get(id)`. */
  function Lookup(st: IntState, id: int): (r: Option<Interrupt>)
    requires DistinctIds(st.table)
    ensures r.None? <==> id !in Ids(st.table)
    ensures r.Some? ==> r.value.id == id && r.value in st.table
    ensures forall i :: 0 <= i < |st.table| && st.table[i].id == id ==> r == Some(st.table[i])
  {
    match Find(st.table, id)
    case None => None
    case Some(i) => Some(st.table[i])
  }

  /** `register_interrupt`: the entry for id is (re)created, not pending. A new id goes to
      the end of the table; an id already present keeps its place, as a dict key does. */
  function Register(st: IntState, id: int, priority: int, handlerAddress: int, description: string): (r: IntState)
    requires DistinctIds(st.table)
    ensures DistinctIds(r.table) && r.enabled == st.enabled
    ensures id in Ids(st.table) ==> Ids(r.table) == Ids(st.table)
    ensures id !in Ids(st.table) ==> Ids(r.table) == Ids(st.table) + [id]
  {
    var e := Interrupt(id, priority, handlerAddress, description, false);
    match Find(st.table, id)
    case Some(i) =>
      var t := st.table[i := e];
      assert forall j :: 0 <= j < |t| ==> t[j].id == st.table[j].id;
      assert DistinctIds(t);
      st.(table := t)
    case None =>
      var t := st.table + [e];
      assert forall j :: 0 <= j < |st.table| ==> t[j] == st.table[j];
      st.(table := t)
  }

  /** After registering, the id is found with exactly the new, non-pending descriptor, and
      every other id is found as before. */
  lemma {:induction false} RegisterLookup(st: IntState, id: int, priority: int, handlerAddress: int, description: string)
    requires DistinctIds(st.table)
    ensures var r := Register(st, id, priority, handlerAddress, description);
            Lookup(r, id) == Some(Interrupt(id, priority, handlerAddress, description, false))
            && forall k :: k != id ==> Lookup(r, k) == Lookup(st, k)
  {
    var r := Register(st, id, priority, handlerAddress, description);
    match Find(st.table, id)
    case Some(i) =>
      assert r.table[i].id == id;
      forall k | k != id
        ensures Lookup(r, k) == Lookup(st, k)
      {
        assert forall j :: 0 <= j < |r.table| && j != i ==> r.table[j] == st.table[j];
      }
    case None =>
      assert r.table[|st.table|].id == id;
      forall k | k != id
        ensures Lookup(r, k) == Lookup(st, k)
      {
        assert forall j :: 0 <= j < |st.table| ==> r.table[j] == st.table[j];
      }
  }

  /** The three registrations `__init__` makes build the standard table. */
  lemma StandardRegistration()
    ensures var st0 := IntState([], true);
            var st1 := Register(st0, TIMER_INTERRUPT, 10, 0x100, "Timer Interrupt");
            var st2 := Register(st1, EXTERNAL_INTERRUPT, 20, 0x200, "External Interrupt");
            Register(st2, SOFTWARE_INTERRUPT, 30, 0x300, "Software Interrupt") == InitialInterrupts()
  {
    var e7 := Interrupt(TIMER_INTERRUPT, 10, 0x100, "Timer Interrupt", false);
    var e11 := Interrupt(EXTERNAL_INTERRUPT, 20, 0x200, "External Interrupt", false);
    var st1 := Register(IntState([], true), TIMER_INTERRUPT, 10, 0x100, "Timer Interrupt");
    assert st1 == IntState([e7], true);
    assert Find([e7], EXTERNAL_INTERRUPT) == None;
    var st2 := Register(st1, EXTERNAL_INTERRUPT, 20, 0x200, "External Interrupt");
    assert st2 == IntState([e7, e11], true);
    assert Find([e7, e11], SOFTWARE_INTERRUPT) == None by {
      assert Find([e7], SOFTWARE_INTERRUPT) == None;
    }
  }

  /** Sets the pending flag of the entry for id, which must exist. */
  function SetPending(st: IntState, id: int, flag: bool): (r: IntState)
    requires DistinctIds(st.table) && id in Ids(st.table)
    ensures DistinctIds(r.table) && r.enabled == st.enabled && Ids(r.table) == Ids(st.table)
    ensures Lookup(r, id) == Some(Lookup(st, id).value.(pending := flag))
    ensures forall k :: k != id ==> Lookup(r, k) == Lookup(st, k)
  {
    var i := Find(st.table, id).value;
    var t := st.table[i := st.table[i].(pending := flag)];
    assert forall j :: 0 <= j < |t| ==> t[j].id == st.table[j].id;
    st.(table := t)
  }

  /** `trigger_interrupt`: an unregistered id fails; otherwise only that entry becomes
      pending. */
  function Trigger(st: IntState, id: int): (r: Result<IntState>)
    requires DistinctIds(st.table)
    ensures r.Err? <==> id !in Ids(st.table)
    ensures r.Err? ==> r.error == UnknownInterrupt
    ensures r.Ok? ==> DistinctIds(r.value.table) && r.value.enabled == st.enabled
    ensures r.Ok? ==> Ids(r.value.table) == Ids(st.table)
    ensures r.Ok? ==> Lookup(r.value, id) == Some(Lookup(st, id).value.(pending := true))
    ensures r.Ok? ==> forall k :: k != id ==> Lookup(r.value, k) == Lookup(st, k)
  {
    if id !in Ids(st.table) then Err(UnknownInterrupt) else Ok(SetPending(st, id, true))
  }

  /** `clear_interrupt`: an unregistered id fails; otherwise only that entry stops being
      pending. */
  function Clear(st: IntState, id: int): (r: Result<IntState>)
    requires DistinctIds(st.table)
    ensures r.Err? <==> id !in Ids(st.table)
    ensures r.Err? ==> r.error == UnknownInterrupt
    ensures r.Ok? ==> DistinctIds(r.value.table) && r.value.enabled == st.enabled
    ensures r.Ok? ==> Ids(r.value.table) == Ids(st.table)
    ensures r.Ok? ==> Lookup(r.value, id) == Some(Lookup(st, id).value.(pending := false))
    ensures r.Ok? ==> forall k :: k != id ==> Lookup(r.value, k) == Lookup(st, k)
  {
    if id !in Ids(st.table) then Err(UnknownInterrupt) else Ok(SetPending(st, id, false))
  }

  /** `any(i.pending for i in ...)`. */
  function AnyPending(s: seq<Interrupt>): (r: bool)
    ensures r <==> exists i :: 0 <= i < |s| && s[i].pending
  {
    if |s| == 0 then false
    else s[0].pending || (assert forall i :: 0 <= i < |s| - 1 ==> s[1..][i] == s[i + 1]; AnyPending(s[1..]))
  }

  /** `has_pending_interrupts`: false while disabled. */
  function HasPending(st: IntState): (r: bool)
    ensures r <==> st.enabled && exists i :: 0 <= i < |st.table| && st.table[i].pending
  {
    st.enabled && AnyPending(st.table)
  }

  /** `get_highest_priority_interrupt`: None while disabled or when nothing is pending;
      otherwise a pending entry of least priority value, the earliest registered on a tie
      (Python's `min` keeps the first minimum). */
  function Highest(st: IntState): (r: Option<Interrupt>)
    ensures r.None? <==> !st.enabled || forall i :: 0 <= i < |st.table| ==> !st.table[i].pending
    ensures r.Some? ==> r.value in st.table && r.value.pending
    ensures r.Some? ==> forall i :: 0 <= i < |st.table| && st.table[i].pending ==> r.value.priority <= st.table[i].priority
    ensures r.Some? ==>
              exists k :: 0 <= k < |st.table| && st.table[k] == r.value &&
                          (forall i :: 0 <= i < k && st.table[i].pending ==> r.value.priority < st.table[i].priority)
  {
    if !st.enabled then None
    else
      match ArgMinFirst(st.table, (e: Interrupt) => e.pending, (e: Interrupt) => e.priority)
      case None => None
      case Some(k) => Some(st.table[k])
  }

  /** `reset` and its loop: every pending flag cleared. */
  function ClearAll(s: seq<Interrupt>): (r: seq<Interrupt>)
    ensures |r| == |s|
    ensures forall i :: 0 <= i < |s| ==> r[i] == s[i].(pending := false)
  {
    seq(|s|, i requires 0 <= i < |s| => s[i].(pending := false))
  }

  /** `reset`: nothing pending, enabled again, every registration kept. */
  function ResetOf(st: IntState): (r: IntState)
    ensures r.enabled && Ids(r.table) == Ids(st.table)
    ensures forall i :: 0 <= i < |r.table| ==> !r.table[i].pending
    ensures forall i :: 0 <= i < |r.table| ==>
              r.table[i].priority == st.table[i].priority && r.table[i].handlerAddress == st.table[i].handlerAddress &&
              r.table[i].description == st.table[i].description
  {
    IntState(ClearAll(st.table), true)
  }

  /** The controller `__init__` builds: enabled, with the three standard interrupts
      registered in the order timer, external, software. */
  function InitialInterrupts(): (r: IntState)
    ensures r.enabled && |r.table| == 3 && !HasPending(r)
  {
    IntState(StandardTable(false), true)
  }

  /** The standard table, with every pending flag equal to `pending`. */
  function StandardTable(pending: bool): seq<Interrupt>
  {
    [Interrupt(TIMER_INTERRUPT, 10, 0x100, "Timer Interrupt", pending),
     Interrupt(EXTERNAL_INTERRUPT, 20, 0x200, "External Interrupt", pending),
     Interrupt(SOFTWARE_INTERRUPT, 30, 0x300, "Software Interrupt", pending)]
  }

  /** A fresh controller is enabled and holds exactly ids 7, 11 and 3, with priorities
      10, 20, 30 and handlers 0x100, 0x200, 0x300, none of them pending. */
  lemma {:induction false} FreshController()
    ensures var st := InitialInterrupts();
            st.enabled && DistinctIds(st.table) && Ids(st.table) == [7, 11, 3] &&
            Lookup(st, 7) == Some(Interrupt(7, 10, 0x100, "Timer Interrupt", false)) &&
            Lookup(st, 11) == Some(Interrupt(11, 20, 0x200, "External Interrupt", false)) &&
            Lookup(st, 3) == Some(Interrupt(3, 30, 0x300, "Software Interrupt", false)) &&
            !HasPending(st) && Highest(st) == None
  {
    var st := InitialInterrupts();
    assert st.table[0].id == 7 && st.table[1].id == 11 && st.table[2].id == 3;
  }

  /** The query and the predicate agree: an interrupt is offered iff one is pending and
      the controller is enabled. */
  lemma HighestIffPending(st: IntState)
    ensures Highest(st).Some? <==> HasPending(st)
  {
  }

  /** Disabling masks without clearing: nothing is offered while disabled, and after
      enabling again the table is exactly as before. */
  lemma DisableKeepsPending(st: IntState)
    ensures !HasPending(st.(enabled := false)) && Highest(st.(enabled := false)) == None
    ensures st.(enabled := false).(enabled := true) == st.(enabled := true)
    ensures st.enabled ==> Highest(st.(enabled := false).(enabled := true)) == Highest(st)
  {
  }

  /** Triggering and then clearing an interrupt that was not pending gives back the
      controller unchanged. */
  lemma {:induction false} TriggerThenClear(st: IntState, id: int)
    requires DistinctIds(st.table) && id in Ids(st.table) && !Lookup(st, id).value.pending
    ensures Clear(Trigger(st, id).value, id) == Ok(st)
  {
    var i := Find(st.table, id).value;
    var t := Trigger(st, id).value;
    assert Find(t.table, id) == Some(i) by {
      assert forall j :: 0 <= j < |t.table| && j != i ==> t.table[j] == st.table[j];
    }
    assert t.table[i := t.table[i].(pending := false)] == st.table;
  }

  /** A triggered interrupt on an enabled controller is offered unless a pending
      interrupt with a priority value at most its own is ahead of it. */
  lemma {:induction false} TriggeredIsOfferedOrBeaten(st: IntState, id: int)
    requires DistinctIds(st.table) && id in Ids(st.table) && st.enabled
    ensures var t := Trigger(st, id).value;
            HasPending(t) && Highest(t).Some? && Highest(t).value.priority <= Lookup(st, id).value.priority
  {
    var t := Trigger(st, id).value;
    var i := Find(t.table, id).value;
    assert t.table[i].pending;
  }

  /** With all three standard interrupts pending, the timer interrupt is offered. */
  lemma {:induction false} TimerFirst()
    ensures Highest(IntState(StandardTable(true), true)) == Some(Interrupt(7, 10, 0x100, "Timer Interrupt", true))
  {
    var all := IntState(StandardTable(true), true);
    var h := Highest(all).value;
    assert h.priority <= all.table[0].priority;
  }

  /** With all three standard interrupts pending, once the timer interrupt is cleared the
      external interrupt is offered. */
  lemma {:induction false} ExternalAfterTimerCleared()
    ensures Clear(IntState(StandardTable(true), true), 7) ==
            Ok(IntState([Interrupt(7, 10, 0x100, "Timer Interrupt", false)] + StandardTable(true)[1..], true))
    ensures Highest(Clear(IntState(StandardTable(true), true), 7).value) ==
            Some(Interrupt(11, 20, 0x200, "External Interrupt", true))
  {
    var all := IntState(StandardTable(true), true);
    var t := all.table;
    assert Find(t[..1], 7) == Some(0);
    assert Find(t[..2], 7) == Some(0);
    assert Find(t, 7) == Some(0);
    var c := IntState([Interrupt(7, 10, 0x100, "Timer Interrupt", false)] + t[1..], true);
    assert c.table == t[0 := t[0].(pending := false)];
    var h := Highest(c).value;
    assert h.priority <= c.table[1].priority;
  }

  /** The controller as the simulator holds it: the dict of descriptors and the enable
      flag, updated in place. */
  class InterruptController {
    var table: seq<Interrupt>
    var enabled: bool

    function State(): IntState
      reads this
    {
      IntState(table, enabled)
    }

    ghost predicate Valid()
      reads this
    {
      DistinctIds(table)
    }

    /** `__init__`: enabled, with the three standard interrupts registered. */
    constructor ()
      ensures Valid() && State() == InitialInterrupts()
    {
      table := [];
      enabled := true;
      new;
      StandardRegistration();
      var _ := RegisterInterrupt(TIMER_INTERRUPT, 10, 0x100, "Timer Interrupt");
      var _ := RegisterInterrupt(EXTERNAL_INTERRUPT, 20, 0x200, "External Interrupt");
      var _ := RegisterInterrupt(SOFTWARE_INTERRUPT, 30, 0x300, "Software Interrupt");
    }

    /** `reset`: clears the pending flag of every entry, one after the other, then enables. */
    method Reset()
      requires Valid()
      modifies this
      ensures Valid() && State() == ResetOf(old(State()))
    {
      var i := 0;
      while i < |table|
        invariant 0 <= i <= |table| == |old(table)|
        invariant forall k :: 0 <= k < i ==> table[k] == old(table)[k].(pending := false)
        invariant forall k :: i <= k < |table| ==> table[k] == old(table)[k]
      {
        table := table[i := table[i].(pending := false)];
        i := i + 1;
      }
      enabled := true;
    }

    method RegisterInterrupt(id: int, priority: int, handlerAddress: int, description: string)
      returns (e: Interrupt)
      requires Valid()
      modifies this
      ensures Valid() && State() == Register(old(State()), id, priority, handlerAddress, description)
      ensures e == Interrupt(id, priority, handlerAddress, description, false)
    {
      e := Interrupt(id, priority, handlerAddress, description, false);
      var i := 0;
      while i < |table|
        invariant 0 <= i <= |table|
        invariant forall k :: 0 <= k < i ==> table[k].id != id
      {
        if table[i].id == id {
          assert Find(table, id) == Some(i) by {
            assert DistinctIds(table);
          }
          table := table[i := e];
          return;
        }
        i := i + 1;
      }
      table := table + [e];
    }

    method TriggerInterrupt(id: int) returns (o: Outcome)
      requires Valid()
      modifies this
      ensures Valid()
      ensures match Trigger(old(State()), id)
              case Ok(s') => o == Pass && State() == s'
              case Err(e) => o == Fail(e) && State() == old(State())
    {
      o := SetFlag(id, true);
    }

    method ClearInterrupt(id: int) returns (o: Outcome)
      requires Valid()
      modifies this
      ensures Valid()
      ensures match Clear(old(State()), id)
              case Ok(s') => o == Pass && State() == s'
              case Err(e) => o == Fail(e) && State() == old(State())
    {
      o := SetFlag(id, false);
    }

    /** The shared body of trigger and clear: look the id up, fail when it is missing,
        otherwise set that entry's flag. */
    method SetFlag(id: int, flag: bool) returns (o: Outcome)
      requires Valid()
      modifies this
      ensures Valid()
      ensures id !in Ids(old(table)) ==> o == Fail(UnknownInterrupt) && State() == old(State())
      ensures id in Ids(old(table)) ==> o == Pass && State() == SetPending(old(State()), id, flag)
    {
      var i := 0;
      while i < |table|
        invariant 0 <= i <= |table|
        invariant forall k :: 0 <= k < i ==> table[k].id != id
      {
        if table[i].id == id {
          assert Find(table, id) == Some(i) by {
            assert DistinctIds(table);
          }
          table := table[i := table[i].(pending := flag)];
          return Pass;
        }
        i := i + 1;
      }
      return Fail(UnknownInterrupt);
    }

    method HasPendingInterrupts() returns (r: bool)
      ensures r == HasPending(State())
    {
      r := HasPending(State());
    }

    method GetHighestPriorityInterrupt() returns (r: Option<Interrupt>)
      ensures r == Highest(State())
    {
      r := Highest(State());
    }

    method Enable()
      modifies this
      ensures State() == old(State()).(enabled := true)
    {
      enabled := true;
    }

    method Disable()
      modifies this
      ensures State() == old(State()).(enabled := false)
    {
      enabled := false;
    }
  }
}
