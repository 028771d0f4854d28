/** A flat, bounds-checked, byte-addressed memory with little-endian half-word and word
    accessors (section 1.4 of the RISC-V Unprivileged ISA manual). The pure functions
    below say what each access returns or leaves behind; the class Memory performs them
    in place on its byte array. */
module MainMemory {
  import opened Common

  /** 1 MiB, the size the simulator allocates. */
  const DEFAULT_SIZE: nat := 1024 * 1024

  /** `_check_address`: an address is valid iff it lies in 0..size-1. */
  predicate InBounds(mem: seq<Byte>, a: int)
  {
    0 <= a < |mem|
  }

  /** The check a `width`-byte access makes: its first and its last byte are both valid.
      Since valid addresses form one interval, checking the two ends checks every byte. */
  predicate SpanOk(mem: seq<Byte>, a: int, width: int)
    ensures width >= 1 ==> (SpanOk(mem, a, width) <==> forall i :: a <= i < a + width ==> InBounds(mem, i))
  {
    InBounds(mem, a) && InBounds(mem, a + width - 1)
  }

  /** m2 is m1 with at most the bytes in [a, a + width) changed. */
  predicate SameOutside(m1: seq<Byte>, m2: seq<Byte>, a: int, width: int)
  {
    |m1| == |m2| && forall i :: 0 <= i < |m1| && !(a <= i < a + width) ==> m1[i] == m2[i]
  }

  function Zeros(n: nat): (m: seq<Byte>)
    ensures |m| == n && forall i :: 0 <= i < n ==> m[i] == 0
  {
    seq(n, _ => 0)
  }

  /** Byte k (0 = least significant) of a Python integer: `(v >> 8k) & 0xFF`. */
  function ByteOf(v: int, k: nat): Byte
  {
    if k == 0 then v % 0x100
    else if k == 1 then (v / 0x100) % 0x100
    else if k == 2 then (v / 0x1_0000) % 0x100
    else (v / 0x100_0000) % 0x100
  }

  /** `read_byte`. */
  function Load8(mem: seq<Byte>, a: int): (r: Result<Byte>)
    ensures r.Err? <==> !InBounds(mem, a)
    ensures r.Err? ==> r.error == OutOfBounds
  {
    if !InBounds(mem, a) then Err(OutOfBounds) else Ok(mem[a])
  }

  /** `write_byte`: stores `v & 0xFF`. */
  function Store8(mem: seq<Byte>, a: int, v: int): (r: Result<seq<Byte>>)
    ensures r.Err? <==> !InBounds(mem, a)
    ensures r.Err? ==> r.error == OutOfBounds
    ensures r.Ok? ==> SameOutside(mem, r.value, a, 1)
    ensures r.Ok? ==> Load8(r.value, a) == Ok(v % 0x100)
  {
    if !InBounds(mem, a) then Err(OutOfBounds) else Ok(mem[a := ByteOf(v, 0)])
  }

  /** `read_half`: the little-endian half-word at a and a + 1. */
  function Load16(mem: seq<Byte>, a: int): (r: Result<int>)
    ensures r.Err? <==> !SpanOk(mem, a, 2)
    ensures r.Err? ==> r.error == OutOfBounds
    ensures r.Ok? ==> 0 <= r.value < 0x1_0000
    ensures r.Ok? ==> r.value % 0x100 == mem[a] as int && r.value / 0x100 == mem[a + 1] as int
  {
    if !SpanOk(mem, a, 2) then Err(OutOfBounds)
    else Ok(mem[a] as int + 0x100 * mem[a + 1] as int)
  }

  /** `write_half`: both bytes are checked before either is stored. */
  function Store16(mem: seq<Byte>, a: int, v: int): (r: Result<seq<Byte>>)
    ensures r.Err? <==> !SpanOk(mem, a, 2)
    ensures r.Err? ==> r.error == OutOfBounds
    ensures r.Ok? ==> SameOutside(mem, r.value, a, 2)
    ensures r.Ok? ==> r.value[a] == ByteOf(v, 0) && r.value[a + 1] == ByteOf(v, 1)
  {
    if !SpanOk(mem, a, 2) then Err(OutOfBounds)
    else Ok(mem[a := ByteOf(v, 0)][a + 1 := ByteOf(v, 1)])
  }

  /** `read_word`: the little-endian word at a .. a + 3. */
  function Load32(mem: seq<Byte>, a: int): (r: Result<Word>)
    ensures r.Err? <==> !SpanOk(mem, a, 4)
    ensures r.Err? ==> r.error == OutOfBounds
    ensures r.Ok? ==> r.value % 0x100 == mem[a] as int && r.value / 0x100 % 0x100 == mem[a + 1] as int
                      && r.value / 0x1_0000 % 0x100 == mem[a + 2] as int && r.value / 0x100_0000 == mem[a + 3] as int
  {
    if !SpanOk(mem, a, 4) then Err(OutOfBounds)
    else
      var top := mem[a + 2] as int + 0x100 * mem[a + 3] as int;
      var mid := mem[a + 1] as int + 0x100 * top;
      assert mem[a] as int + 0x100 * mid
             == mem[a] as int + 0x100 * mem[a + 1] as int + 0x1_0000 * mem[a + 2] as int + 0x100_0000 * mem[a + 3] as int;
      Ok(mem[a] as int + 0x100 * mid)
  }

  /** `write_word`: the first and last byte are checked before any byte is stored. */
  function Store32(mem: seq<Byte>, a: int, v: int): (r: Result<seq<Byte>>)
    ensures r.Err? <==> !SpanOk(mem, a, 4)
    ensures r.Err? ==> r.error == OutOfBounds
    ensures r.Ok? ==> SameOutside(mem, r.value, a, 4)
  {
    if !SpanOk(mem, a, 4) then Err(OutOfBounds)
    else Ok(mem[a := ByteOf(v, 0)][a + 1 := ByteOf(v, 1)][a + 2 := ByteOf(v, 2)][a + 3 := ByteOf(v, 3)])
  }

  /** `read_block(a, n)`: the slice `memory[a:a+n]` after checking a and a + n - 1; a
      count of zero or less yields an empty block (when both checks pass). */
  function LoadBlock(mem: seq<Byte>, a: int, n: int): (r: Result<seq<Byte>>)
    ensures r.Err? <==> !SpanOk(mem, a, n)
    ensures r.Err? ==> r.error == OutOfBounds
    ensures r.Ok? ==> |r.value| == if n <= 0 then 0 else n
    ensures r.Ok? ==> forall i :: 0 <= i < |r.value| ==> r.value[i] == mem[a + i]
  {
    if !SpanOk(mem, a, n) then Err(OutOfBounds)
    else if n <= 0 then Ok([])
    else Ok(mem[a..a + n])
  }

  /** `write_block(a, d)`: the slice assignment `memory[a:a+len(d)] = d` after checking a
      and a + len(d) - 1. An empty block therefore still needs a - 1 to be valid. */
  function StoreBlock(mem: seq<Byte>, a: int, d: seq<Byte>): (r: Result<seq<Byte>>)
    ensures r.Err? <==> !SpanOk(mem, a, |d|)
    ensures r.Err? ==> r.error == OutOfBounds
    ensures r.Ok? ==> SameOutside(mem, r.value, a, |d|)
  {
    if !SpanOk(mem, a, |d|) then Err(OutOfBounds)
    else Ok(mem[..a] + d + mem[a + |d|..])
  }

  /** Dropping one more byte: (x / d) / 256 == x / (256 d), for the byte positions used. */
  lemma DivThenByte(x: int, d: int)
    requires d == 0x100 || d == 0x1_0000 || d == 0x100_0000
    ensures (x / d) / 0x100 == x / (d * 0x100)
  {
    var q := x / d;
    var r := x % d;
    var q2 := q / 0x100;
    var r2 := q % 0x100;
    assert x == d * q + r && 0 <= r < d;
    assert q == 0x100 * q2 + r2 && 0 <= r2 < 0x100;
    assert x == (d * 0x100) * q2 + (d * r2 + r);
    assert 0 <= d * r2 + r < d * 0x100;
  }

  /** The four bytes of a word, reassembled, give the word masked to 32 bits. */
  lemma LittleEndianBytes(v: int)
    ensures ByteOf(v, 0) + 0x100 * ByteOf(v, 1) == v % 0x1_0000
    ensures ByteOf(v, 0) + 0x100 * ByteOf(v, 1) + 0x1_0000 * ByteOf(v, 2) + 0x100_0000 * ByteOf(v, 3)
            == Mask32(v)
  {
    var q1, q2, q3, q4 := v / 0x100, v / 0x1_0000, v / 0x100_0000, v / 0x1_0000_0000;
    DivThenByte(v, 0x100);
    DivThenByte(v, 0x1_0000);
    DivThenByte(v, 0x100_0000);
    var b0, b1, b2, b3 := ByteOf(v, 0), ByteOf(v, 1), ByteOf(v, 2), ByteOf(v, 3);
    assert v == b0 + 0x100 * q1;
    assert q1 == b1 + 0x100 * q2;
    assert q2 == b2 + 0x100 * q3;
    assert q3 == b3 + 0x100 * q4;
    assert v == (b0 + 0x100 * b1) + 0x1_0000 * q2;
    assert v == (b0 + 0x100 * b1 + 0x1_0000 * b2 + 0x100_0000 * b3) + 0x1_0000_0000 * q4;
  }

  /** write_byte then read_byte returns the value masked to 8 bits. */
  lemma WriteByteThenRead(mem: seq<Byte>, a: int, v: int)
    requires InBounds(mem, a)
    ensures Load8(Store8(mem, a, v).value, a) == Ok(v % 0x100)
  {
  }

  /** write_half then read_half returns the value masked to 16 bits, and the bytes at
      a and a + 1 are its little-endian bytes. */
  lemma {:induction false} WriteHalfThenRead(mem: seq<Byte>, a: int, v: int)
    requires SpanOk(mem, a, 2)
    ensures Load16(Store16(mem, a, v).value, a) == Ok(v % 0x1_0000)
    ensures forall k :: 0 <= k < 2 ==> Load8(Store16(mem, a, v).value, a + k) == Ok(ByteOf(v, k))
  {
    LittleEndianBytes(v);
  }

  /** write_word then read_word returns the value masked to 32 bits, and the bytes at
      a .. a + 3 are its little-endian bytes. */
  lemma {:induction false} WriteWordThenRead(mem: seq<Byte>, a: int, v: int)
    requires SpanOk(mem, a, 4)
    ensures Load32(Store32(mem, a, v).value, a) == Ok(Mask32(v))
    ensures forall k :: 0 <= k < 4 ==> Load8(Store32(mem, a, v).value, a + k) == Ok(ByteOf(v, k))
  {
    LittleEndianBytes(v);
  }

  /** write_block then read_block of the same length returns the block. */
  lemma {:induction false} WriteBlockThenRead(mem: seq<Byte>, a: int, d: seq<Byte>)
    requires SpanOk(mem, a, |d|)
    ensures LoadBlock(StoreBlock(mem, a, d).value, a, |d|) == Ok(d)
  {
    var m := StoreBlock(mem, a, d).value;
    assert |d| > 0 ==> m[a..a + |d|] == d;
  }

  /** A multi-byte write that would cross the end of memory changes nothing, not even the
      bytes below the end. */
  lemma NoPartialWrites(mem: seq<Byte>, a: int, v: int)
    requires 0 <= a < |mem| <= a + 3
    ensures Store32(mem, a, v).Err? && Store16(mem, |mem| - 1, v).Err?
  {
  }

  /** The memory as the simulator holds it: a fixed-size bytearray, written byte by byte
      after the guard checks, and replaced by a fresh zeroed one on reset. */
  class Memory {
    const size: nat
    var bytes: array<Byte>

    ghost predicate Valid()
      reads this
    {
      bytes.Length == size
    }

    function Contents(): seq<Byte>
      reads this, bytes
    {
      bytes[..]
    }

    constructor (size: nat)
      ensures Valid() && fresh(bytes)
      ensures this.size == size && Contents() == Zeros(size)
    {
      this.size := size;
      bytes := new Byte[size](_ => 0);
    }

    /** `reset`: every byte zero, the size kept. */
    method Reset()
      requires Valid()
      modifies this
      ensures Valid() && fresh(bytes)
      ensures Contents() == Zeros(size)
    {
      bytes := new Byte[size](_ => 0);
    }

    method CheckAddress(a: int) returns (o: Outcome)
      requires Valid()
      ensures o.Pass? <==> InBounds(Contents(), a)
      ensures o.Fail? ==> o.error == OutOfBounds
    {
      if a < 0 || a >= size {
        return Fail(OutOfBounds);
      }
      o := Pass;
    }

    method ReadByte(a: int) returns (r: Result<Byte>)
      requires Valid()
      ensures r == Load8(Contents(), a)
    {
      var o := CheckAddress(a);
      if o.Fail? {
        return Err(o.error);
      }
      r := Ok(bytes[a]);
    }

    method WriteByte(a: int, v: int) returns (o: Outcome)
      requires Valid()
      modifies bytes
      ensures Valid()
      ensures match Store8(old(Contents()), a, v)
              case Ok(m) => o == Pass && Contents() == m
              case Err(e) => o == Fail(e) && Contents() == old(Contents())
    {
      o := CheckAddress(a);
      if o.Fail? {
        return;
      }
      bytes[a] := v % 0x100;
    }

    method ReadHalf(a: int) returns (r: Result<int>)
      requires Valid()
      ensures r == Load16(Contents(), a)
    {
      var o := CheckAddress(a);
      if o.Pass? {
        o := CheckAddress(a + 1);
      }
      if o.Fail? {
        return Err(o.error);
      }
      r := Ok(bytes[a] as int + 0x100 * bytes[a + 1] as int);
    }

    method WriteHalf(a: int, v: int) returns (o: Outcome)
      requires Valid()
      modifies bytes
      ensures Valid()
      ensures match Store16(old(Contents()), a, v)
              case Ok(m) => o == Pass && Contents() == m
              case Err(e) => o == Fail(e) && Contents() == old(Contents())
    {
      o := CheckAddress(a);
      if o.Pass? {
        o := CheckAddress(a + 1);
      }
      if o.Fail? {
        return;
      }
      bytes[a] := ByteOf(v, 0);
      bytes[a + 1] := ByteOf(v, 1);
    }

    method ReadWord(a: int) returns (r: Result<Word>)
      requires Valid()
      ensures r == Load32(Contents(), a)
    {
      var o := CheckAddress(a);
      if o.Pass? {
        o := CheckAddress(a + 3);
      }
      if o.Fail? {
        return Err(o.error);
      }
      r := Ok(bytes[a] as int + 0x100 * bytes[a + 1] as int + 0x1_0000 * bytes[a + 2] as int + 0x100_0000 * bytes[a + 3] as int);
    }

    method WriteWord(a: int, v: int) returns (o: Outcome)
      requires Valid()
      modifies bytes
      ensures Valid()
      ensures match Store32(old(Contents()), a, v)
              case Ok(m) => o == Pass && Contents() == m
              case Err(e) => o == Fail(e) && Contents() == old(Contents())
    {
      o := CheckAddress(a);
      if o.Pass? {
        o := CheckAddress(a + 3);
      }
      if o.Fail? {
        return;
      }
      bytes[a] := ByteOf(v, 0);
      bytes[a + 1] := ByteOf(v, 1);
      bytes[a + 2] := ByteOf(v, 2);
      bytes[a + 3] := ByteOf(v, 3);
    }

    method ReadBlock(a: int, n: int) returns (r: Result<seq<Byte>>)
      requires Valid()
      ensures r == LoadBlock(Contents(), a, n)
    {
      var o := CheckAddress(a);
      if o.Pass? {
        o := CheckAddress(a + n - 1);
      }
      if o.Fail? {
        return Err(o.error);
      }
      r := Ok(if n <= 0 then [] else bytes[a..a + n]);
    }

    method WriteBlock(a: int, d: seq<Byte>) returns (o: Outcome)
      requires Valid()
      modifies bytes
      ensures Valid()
      ensures match StoreBlock(old(Contents()), a, d)
              case Ok(m) => o == Pass && Contents() == m
              case Err(e) => o == Fail(e) && Contents() == old(Contents())
    {
      o := CheckAddress(a);
      if o.Pass? {
        o := CheckAddress(a + |d| - 1);
      }
      if o.Fail? {
        return;
      }
      forall i | 0 <= i < |d| {
        bytes[a + i] := d[i];
      }
      assert Contents() == old(Contents())[..a] + d + old(Contents())[a + |d|..];
    }
  }
}
