/** Shared vocabulary of the model: failure-compatible results, machine words and bytes,
    and the "first minimum" selection that Python's `min` performs over a list. */
module Common {

  datatype Option<+T> = None | Some(value: T)

  /** The error conditions the source signals by raising `ValueError`. */
  datatype Error =
    | InvalidRegister        // register number outside 0..31
    | NoSavedContext         // restore_context with nothing to restore
    | OutOfBounds            // memory address outside 0..size-1
    | UnknownInterrupt       // interrupt id never registered
    | TaskNotFound           // task id not in the task table
    | UnknownSchedulerType   // scheduler name the factory does not know

  datatype Result<+T> = Ok(value: T) | Err(error: Error)

  datatype Outcome = Pass | Fail(error: Error)

  const WORD_MODULUS: int := 0x1_0000_0000

  /** An unsigned 32-bit value, as produced by `value & 0xFFFFFFFF`. */
  type Word = x: int | 0 <= x < 0x1_0000_0000

  /** One element of a Python `bytearray`. */
  type Byte = x: int | 0 <= x < 256

  /** `v & 0xFFFFFFFF` on a Python integer: the residue of v modulo 2^32. */
  function Mask32(v: int): (r: Word)
    ensures (v - r) % WORD_MODULUS == 0
    ensures 0 <= v < WORD_MODULUS ==> r == v
  {
    v % WORD_MODULUS
  }

  /** The index Python's `min(xs, key=key)` picks among the elements of s that satisfy
      `eligible`: an eligible element of least key, the first one in order on a tie.
      None when nothing is eligible (the source tests for an empty list first). */
  function ArgMinFirst<T>(s: seq<T>, eligible: T -> bool, key: T -> int): (r: Option<nat>)
    ensures r.None? <==> forall j :: 0 <= j < |s| ==> !eligible(s[j])
    ensures r.Some? ==> r.value < |s| && eligible(s[r.value])
    ensures r.Some? ==> forall j :: 0 <= j < |s| && eligible(s[j]) ==> key(s[r.value]) <= key(s[j])
    ensures r.Some? ==> forall j :: 0 <= j < r.value && eligible(s[j]) ==> key(s[r.value]) < key(s[j])
  {
    if |s| == 0 then None
    else
      var r := ArgMinFirst(s[..|s| - 1], eligible, key);
      var last := |s| - 1;
      if !eligible(s[last]) then r
      else if r.None? then Some(last)
      else if key(s[last]) < key(s[r.value]) then Some(last)
      else r
  }
}
