/**
 * Packets of the serial bootloader protocol. `BeginFlashPacket` is the only
 * concrete packet class, so it carries the members of its abstract base
 * `Packet` as well: the `direction` and `size` fields, `toByteArray` and
 * `fromByteArray`.
 */
module Packets {
  import opened Wrappers
  import opened JvmBytes
  import opened Slip
  import opened CommandTypes

  /** The buffer `toByteArray` fills before `encode` runs: an 8-byte header, then a zeroed payload area. */
  function Header(direction: Direction, command: CommandType): seq<bv8> {
    [DirectionValue(direction), Value(command)] + ShortBytes(Size(command)) + IntBytes(0) + Zeros(Size(command))
  }

  /**
   * The header layout: length 8 + declared size; byte 0 the direction, byte 1
   * the command, bytes 2-3 the declared size big-endian, bytes 4-7 zero (the
   * checksum is never computed), and the payload area still zero.
   */
  lemma HeaderLayout(direction: Direction, command: CommandType)
    ensures var h := Header(direction, command);
      && |h| == 8 + Size(command)
      && h[0] == DirectionValue(direction)
      && h[1] == Value(command)
      && Unsigned(h[2..4]) == Size(command)
      && h[4..8] == [0, 0, 0, 0]
      && h[8..] == Zeros(Size(command))
  {
    var a := [DirectionValue(direction), Value(command)];
    DeclaredSizes(command);
    ShortBytesValue(Size(command));
    IntBytesOfZero();
    Slices(a, ShortBytes(Size(command)), IntBytes(0), Zeros(Size(command)));
    var h := Header(direction, command);
    assert h[0] == h[..2][0] && h[1] == h[..2][1];
  }

  /** The four parts of a concatenation, cut back out. */
  lemma Slices(a: seq<bv8>, b: seq<bv8>, c: seq<bv8>, d: seq<bv8>)
    ensures var h := a + b + c + d;
      && h[..|a|] == a
      && h[|a|..|a| + |b|] == b
      && h[|a| + |b|..|a| + |b| + |c|] == c
      && h[|a| + |b| + |c|..] == d
  {
  }

  lemma IntBytesOfZero()
    ensures IntBytes(0) == [0, 0, 0, 0]
  {
    assert UnsignedBytes(0, 1) == [0];
    assert UnsignedBytes(0, 2) == [0, 0];
    assert UnsignedBytes(0, 3) == [0, 0, 0];
  }

  /**
   * The writes of `toByteArray` into a zeroed buffer of 8 + size bytes:
   * direction at 0, command at 1, the size as a short at 2, the checksum 0
   * as an int at 4.
   */
  lemma HeaderWrites(direction: Direction, command: CommandType, c0: seq<bv8>, c1: seq<bv8>, c2: seq<bv8>, c3: seq<bv8>, c4: seq<bv8>)
    requires c0 == Zeros(8 + Size(command))
    requires c1 == c0[..0] + [DirectionValue(direction)] + c0[1..]
    requires c2 == c1[..1] + [Value(command)] + c1[2..]
    requires c3 == c2[..2] + ShortBytes(Size(command)) + c2[4..]
    requires c4 == c3[..4] + IntBytes(0) + c3[8..]
    ensures c4 == Header(direction, command)
  {
    var d, c := DirectionValue(direction), Value(command);
    var n := 8 + Size(command);
    assert c0[..0] == [] && c0[0..] == Zeros(n);
    FillZeros(c0, c1, 0, [d], []);
    FillZeros(c1, c2, 1, [c], [d]);
    FillZeros(c2, c3, 2, ShortBytes(Size(command)), [d, c]);
    FillZeros(c3, c4, 4, IntBytes(0), [d, c] + ShortBytes(Size(command)));
    assert c4 == c4[..8] + c4[8..];
  }

  /** The first 32-bit word `k` (0-based) at `at`, as `getInt` reads it. */
  function Word(bytes: seq<bv8>, at: nat, k: nat): int
    requires at + 4 * k + 4 <= |bytes|
  {
    GetIntOf(bytes[at + 4 * k..at + 4 * k + 4])
  }

  function Min(a: int, b: int): int {
    if a < b then a else b
  }

  class BeginFlashPacket {
    const command: CommandType
    var direction: Direction
    /** `size: Short`, initialised to 0 and never read. */
    var size: int
    var firmwareSize: int
    var blocks: int
    var blockSize: int
    var offset: int

    /** A new packet: command FLASH_BEGIN, direction REQUEST, every field 0. */
    constructor ()
      ensures command == FlashBegin && direction == Request && size == 0
      ensures firmwareSize == 0 && blocks == 0 && blockSize == 0 && offset == 0
    {
      command := FlashBegin;
      direction := Request;
      size := 0;
      firmwareSize, blocks, blockSize, offset := 0, 0, 0, 0;
    }

    /**
     * `decode`: four big-endian signed 32-bit words, in the order firmware
     * size, blocks, block size, offset, read from the buffer's position. With
     * fewer than 16 bytes left, `getInt` throws at the first word that does not
     * fit; the words read before it stay assigned.
     */
    method Decode(buffer: ByteBuffer) returns (r: Result<(), BufferError>)
      requires buffer.Valid()
      modifies this, buffer
      ensures buffer.Valid() && buffer.contents == old(buffer.contents)
      ensures r.Success? <==> old(buffer.Remaining()) >= 16
      ensures r.Failure? ==> r.error == Underflow
      ensures buffer.position == old(buffer.position) + 4 * Min(old(buffer.Remaining()) / 4, 4)
      ensures firmwareSize ==
        if old(buffer.Remaining()) >= 4 then Word(buffer.contents, old(buffer.position), 0) else old(firmwareSize)
      ensures blocks ==
        if old(buffer.Remaining()) >= 8 then Word(buffer.contents, old(buffer.position), 1) else old(blocks)
      ensures blockSize ==
        if old(buffer.Remaining()) >= 12 then Word(buffer.contents, old(buffer.position), 2) else old(blockSize)
      ensures offset ==
        if old(buffer.Remaining()) >= 16 then Word(buffer.contents, old(buffer.position), 3) else old(offset)
      ensures direction == old(direction) && size == old(size)
    {
      var word := buffer.GetInt();
      if word.Failure? { return Failure(word.error); }
      firmwareSize := word.value;
      word := buffer.GetInt();
      if word.Failure? { return Failure(word.error); }
      blocks := word.value;
      word := buffer.GetInt();
      if word.Failure? { return Failure(word.error); }
      blockSize := word.value;
      word := buffer.GetInt();
      if word.Failure? { return Failure(word.error); }
      offset := word.value;
      return Success(());
    }

    /** `encode`: `TODO("Not yet implemented")`, so it always throws. */
    method Encode(buffer: ByteBuffer) returns (r: Result<(), PacketError>)
      ensures r == Failure(NotImplemented)
    {
      return Failure(NotImplemented);
    }

    /** The `ByteBuffer.allocate(8 + command.size).apply { ... }` block of `toByteArray`. */
    method HeaderBuffer() returns (buffer: ByteBuffer)
      ensures fresh(buffer) && buffer.Valid()
      ensures buffer.contents == Header(direction, command) && buffer.position == 8
    {
      DeclaredSizes(command);
      buffer := new ByteBuffer.Allocate(8 + Size(command));
      ghost var c0 := buffer.contents;
      buffer.Put(DirectionValue(direction));
      ghost var c1 := buffer.contents;
      buffer.Put(Value(command));
      ghost var c2 := buffer.contents;
      buffer.PutShort(Size(command));
      ghost var c3 := buffer.contents;
      buffer.PutInt(0);
      HeaderWrites(direction, command, c0, c1, c2, c3, buffer.contents);
    }

    /**
     * `toByteArray`: the header buffer, then `encode`, then `encodeSLIP` of the
     * whole array. `encode` throws, so no bytes are ever produced.
     */
    method ToByteArray() returns (r: Result<seq<bv8>, PacketError>)
      ensures r == Failure(NotImplemented)
    {
      var buffer := HeaderBuffer();
      var unframed := buffer.contents;
      var encoded := Encode(buffer);
      if encoded.Failure? {
        return Failure(encoded.error);
      }
      var framed := EncodeSlip(unframed);
      return Success(framed);
    }

    /**
     * `fromByteArray` up to the command lookup: decode the SLIP escaping, read
     * the direction (assigning the field) and the command. The reflective
     * packet construction that follows is not part of this model; the result
     * is the command found.
     */
    method FromByteArray(byteArray: seq<bv8>) returns (r: Result<CommandType, PacketError>)
      modifies this
      ensures var h := ReadHeader(byteArray);
        && (h.Success? ==> r == Success(h.value.1) && direction == h.value.0)
        && (h.Failure? ==> r == Failure(h.error))
      ensures |byteArray| >= 1 && DirectionGetByValue(byteArray[0]).Some? ==>
        direction == DirectionGetByValue(byteArray[0]).value
      ensures !(|byteArray| >= 1 && DirectionGetByValue(byteArray[0]).Some?) ==> direction == old(direction)
      ensures size == old(size) && firmwareSize == old(firmwareSize) && blocks == old(blocks)
      ensures blockSize == old(blockSize) && offset == old(offset)
    {
      var decoded := DecodeSlip(byteArray);
      if decoded.Failure? {
        return Failure(IndexOutOfBounds);
      }
      var buffer := new ByteBuffer.Wrap(decoded.value);
      var first := buffer.Get();
      if first.Failure? {
        return Failure(BufferUnderflow);
      }
      var d := DirectionGetByValue(first.value);
      if d.None? {
        return Failure(UnknownDirection);
      }
      direction := d.value;
      var second := buffer.Get();
      if second.Failure? {
        return Failure(BufferUnderflow);
      }
      var c := GetByValue(second.value);
      if c.None? {
        return Failure(UnknownCommand);
      }
      return Success(c.value);
    }
  }

  /** As written, a packet's own framed header is rejected with "unknown direction". */
  lemma FramedHeaderIsRejected(direction: Direction, command: CommandType)
    ensures ReadHeader([End] + Header(direction, command) + [End]) == Failure(UnknownDirection)
  {
    AsWrittenFrameIsRejected(Header(direction, command));
  }
}
