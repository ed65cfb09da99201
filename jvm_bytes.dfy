/**
 * The JVM byte semantics the serial codec relies on: Kotlin's sign-extending
 * `Byte.toInt()`, `Int.toByte()`/`OutputStream.write(Int)` keeping the low 8
 * bits, big-endian integers, and a `java.nio.ByteBuffer` with a position.
 */
module JvmBytes {
  import opened Wrappers

  /** Kotlin `Byte.toInt()`: the byte as a signed two's-complement value. */
  function ToInt(b: bv8): (r: int)
    ensures -128 <= r <= 127
  {
    var n := b as int;
    if n < 0x80 then n else n - 0x100
  }

  /** Kotlin `Int.toByte()` and `OutputStream.write(Int)`: the low 8 bits. */
  function LowByte(i: int): bv8 {
    ByteOf(i % 0x100)
  }

  /** Writing a sign-extended byte back writes the byte itself. */
  lemma LowByteOfToInt(b: bv8)
    ensures LowByte(ToInt(b)) == b
  {
    var n := b as int;
    if n < 0x80 {
      assert ToInt(b) == n;
    } else {
      assert ToInt(b) == n - 0x100;
      assert (n - 0x100) % 0x100 == n;
    }
    ByteOfToValue(b);
  }

  /** `Int.toByte()` keeps the value modulo 256, so a value in the byte range survives a round trip. */
  lemma ToIntOfLowByte(i: int)
    ensures LowByte(i) as int == i % 0x100
    ensures -0x80 <= i < 0x80 ==> ToInt(LowByte(i)) == i
  {
    var n := i % 0x100;
    ByteOfValue(n);
    assert LowByte(i) as int == n;
    if -0x80 <= i < 0x80 {
      if i >= 0 {
        assert n == i;
      } else {
        assert n == i + 0x100;
      }
    }
  }

  /** A sign-extended byte never equals an `Int` literal of 128 or more, such as 0xC0 or 0xDB. */
  lemma ToIntBelow128(b: bv8, literal: int)
    requires literal >= 0x80
    ensures ToInt(b) != literal
  {
  }

  function Pow256(n: nat): nat {
    if n == 0 then 1 else 0x100 * Pow256(n - 1)
  }

  function Zeros(n: nat): (r: seq<bv8>)
    ensures |r| == n && forall i :: 0 <= i < n ==> r[i] == 0
  {
    seq(n, _ => 0)
  }

  /** The big-endian unsigned value of a byte string. */
  function Unsigned(b: seq<bv8>): nat {
    if b == [] then 0 else Unsigned(b[..|b| - 1]) * 0x100 + b[|b| - 1] as int
  }

  /** The `n` low-order bytes of `u`, most significant first. */
  function UnsignedBytes(u: nat, n: nat): (r: seq<bv8>)
    ensures |r| == n
  {
    if n == 0 then [] else UnsignedBytes(u / 0x100, n - 1) + [ByteOf(u % 0x100)]
  }

  /**
   * The byte whose unsigned value is `k`: what `k as bv8` gives. It is counted
   * up from zero instead, because proofs about the int-to-bv8 conversion are
   * unstable in the solver, while converting bytes to integers is cheap.
   */
  function ByteOf(k: int): bv8
    requires 0 <= k < 0x100
  {
    if k == 0 then 0 else ByteOf(k - 1) + 1
  }

  lemma {:induction false} ByteOfValue(k: int)
    requires 0 <= k < 0x100
    ensures ByteOf(k) as int == k
  {
    if k > 0 {
      ByteOfValue(k - 1);
      ByteSucc(ByteOf(k - 1));
    }
  }

  /** Counting up to a byte's unsigned value gives the byte back. */
  lemma ByteOfToValue(b: bv8)
    ensures ByteOf(b as int) == b
    decreases b as int
  {
    if b as int > 0 {
      var p := b - 1;
      assert p as int == b as int - 1;
      ByteOfToValue(p);
      assert p + 1 == b;
    }
  }

  lemma ByteSucc(b: bv8)
    requires b as int < 0xFF
    ensures (b + 1) as int == b as int + 1
  {
  }

  lemma {:induction false} UnsignedRoundTrip(u: nat, n: nat)
    requires u < Pow256(n)
    ensures Unsigned(UnsignedBytes(u, n)) == u
  {
    if n > 0 {
      var b := UnsignedBytes(u, n);
      assert b[..n - 1] == UnsignedBytes(u / 0x100, n - 1);
      UnsignedRoundTrip(u / 0x100, n - 1);
      ByteOfValue(u % 0x100);
    }
  }

  predicate IsShort(v: int) { -0x8000 <= v < 0x8000 }
  predicate IsInt(v: int) { -0x8000_0000 <= v < 0x8000_0000 }

  /** `putShort`: two bytes, big-endian (the `ByteBuffer` default). */
  function ShortBytes(v: int): (r: seq<bv8>)
    ensures |r| == 2
  {
    UnsignedBytes(v % 0x1_0000, 2)
  }

  /** `putInt`: four bytes, big-endian. */
  function IntBytes(v: int): (r: seq<bv8>)
    ensures |r| == 4
  {
    UnsignedBytes(v % 0x1_0000_0000, 4)
  }

  /** `getInt`: four big-endian bytes read as a signed 32-bit value. */
  function GetIntOf(b: seq<bv8>): (v: int)
    requires |b| == 4
    ensures IsInt(v)
  {
    assert Pow256(4) == 0x1_0000_0000;
    UnsignedBelow(b);
    var n := Unsigned(b);
    if n < 0x8000_0000 then n else n - 0x1_0000_0000
  }

  lemma {:induction false} UnsignedBelow(b: seq<bv8>)
    ensures Unsigned(b) < Pow256(|b|)
  {
    if b != [] {
      UnsignedBelow(b[..|b| - 1]);
    }
  }

  /** `getInt` reads back what `putInt` wrote. */
  lemma IntRoundTrip(v: int)
    requires IsInt(v)
    ensures GetIntOf(IntBytes(v)) == v
  {
    assert Pow256(4) == 0x1_0000_0000;
    UnsignedRoundTrip(v % 0x1_0000_0000, 4);
  }

  /** A short written with `putShort` has the big-endian unsigned value `v` when `v` is not negative. */
  lemma ShortBytesValue(v: int)
    requires 0 <= v < 0x8000
    ensures Unsigned(ShortBytes(v)) == v
  {
    assert Pow256(2) == 0x1_0000;
    UnsignedRoundTrip(v, 2);
  }

  /** Writing `written` at `p` into a buffer whose bytes from `p` on are still zero. */
  lemma FillZeros(before: seq<bv8>, after: seq<bv8>, p: nat, written: seq<bv8>, prefix: seq<bv8>)
    requires p + |written| <= |before|
    requires before[..p] == prefix && before[p..] == Zeros(|before| - p)
    requires after == before[..p] + written + before[p + |written|..]
    ensures |after| == |before|
    ensures after[..p + |written|] == prefix + written
    ensures after[p + |written|..] == Zeros(|before| - p - |written|)
  {
    assert before[p + |written|..] == before[p..][|written|..];
  }

  datatype BufferError = Underflow  // BufferUnderflowException

  /**
   * A heap `ByteBuffer` as the codec uses it: a fixed backing array and a
   * position; the limit is the capacity (no `flip`, `mark` or `limit` calls occur).
   */
  class ByteBuffer {
    var contents: seq<bv8>
    var position: nat

    ghost predicate Valid()
      reads this
    {
      position <= |contents|
    }

    function Remaining(): nat
      reads this
      requires Valid()
    {
      |contents| - position
    }

    /** `ByteBuffer.allocate(capacity)`: zero-filled. */
    constructor Allocate(capacity: nat)
      ensures Valid() && contents == Zeros(capacity) && position == 0
    {
      contents := Zeros(capacity);
      position := 0;
    }

    /** `ByteBuffer.wrap(bytes)`. */
    constructor Wrap(bytes: seq<bv8>)
      ensures Valid() && contents == bytes && position == 0
    {
      contents := bytes;
      position := 0;
    }

    /** `put(byte)`. */
    method Put(b: bv8)
      requires Valid() && Remaining() >= 1
      modifies this
      ensures Valid()
      ensures contents == old(contents)[..old(position)] + [b] + old(contents)[old(position) + 1..]
      ensures position == old(position) + 1
    {
      contents := contents[..position] + [b] + contents[position + 1..];
      position := position + 1;
    }

    /** Writes `bytes` at the position and moves past them (the body of `putShort` and `putInt`). */
    method PutAll(bytes: seq<bv8>)
      requires Valid() && Remaining() >= |bytes|
      modifies this
      ensures Valid()
      ensures contents == old(contents)[..old(position)] + bytes + old(contents)[old(position) + |bytes|..]
      ensures position == old(position) + |bytes|
    {
      contents := contents[..position] + bytes + contents[position + |bytes|..];
      position := position + |bytes|;
    }

    method PutShort(v: int)
      requires Valid() && Remaining() >= 2 && IsShort(v)
      modifies this
      ensures Valid()
      ensures contents == old(contents)[..old(position)] + ShortBytes(v) + old(contents)[old(position) + 2..]
      ensures position == old(position) + 2
    {
      PutAll(ShortBytes(v));
    }

    method PutInt(v: int)
      requires Valid() && Remaining() >= 4 && IsInt(v)
      modifies this
      ensures Valid()
      ensures contents == old(contents)[..old(position)] + IntBytes(v) + old(contents)[old(position) + 4..]
      ensures position == old(position) + 4
    {
      PutAll(IntBytes(v));
    }

    /** `get()`: the next byte, or a `BufferUnderflowException` that leaves the position alone. */
    method Get() returns (r: Result<bv8, BufferError>)
      requires Valid()
      modifies this
      ensures Valid() && contents == old(contents)
      ensures old(Remaining()) >= 1 ==> r == Success(contents[old(position)]) && position == old(position) + 1
      ensures old(Remaining()) < 1 ==> r == Failure(Underflow) && position == old(position)
    {
      if position < |contents| {
        r := Success(contents[position]);
        position := position + 1;
      } else {
        r := Failure(Underflow);
      }
    }

    /** `getInt()`: the next four bytes as a big-endian signed value, or a `BufferUnderflowException`. */
    method GetInt() returns (r: Result<int, BufferError>)
      requires Valid()
      modifies this
      ensures Valid() && contents == old(contents)
      ensures old(Remaining()) >= 4 ==>
        r == Success(GetIntOf(contents[old(position)..old(position) + 4])) && position == old(position) + 4
      ensures old(Remaining()) < 4 ==> r == Failure(Underflow) && position == old(position)
    {
      if position + 4 <= |contents| {
        r := Success(GetIntOf(contents[position..position + 4]));
        position := position + 4;
      } else {
        r := Failure(Underflow);
      }
    }
  }
}
