/** The serial bootloader's command table: byte value, declared payload size, packet class. */
module CommandTypes {
  import opened Wrappers
  import opened EnumLookup

  datatype CommandType =
    | FlashBegin
    | FlashData
    | FlashEnd
    | MemBegin
    | MemEnd
    | MemData
    | Sync
    | WriteReg
    | ReadReg

  /** The Kotlin class a command's packets are built from. */
  datatype PacketClass = BeginFlashPacketClass | AbstractPacketClass

  /** The enum's entries in declaration order. */
  const Entries: seq<CommandType> := [
    FlashBegin, FlashData, FlashEnd, MemBegin, MemEnd, MemData, Sync, WriteReg, ReadReg
  ]

  /** The command byte. */
  function Value(c: CommandType): bv8 {
    match c
    case FlashBegin => 0x02
    case FlashData => 0x03
    case FlashEnd => 0x04
    case MemBegin => 0x05
    case MemEnd => 0x06
    case MemData => 0x07
    case Sync => 0x08
    case WriteReg => 0x09
    case ReadReg => 0x0a
  }

  /** The declared payload size (a Kotlin `Short`). */
  function Size(c: CommandType): int {
    match c
    case FlashBegin => 16
    case _ => 0
  }

  function Class(c: CommandType): PacketClass {
    match c
    case FlashBegin => BeginFlashPacketClass
    case _ => AbstractPacketClass
  }

  /** `getByValue`: the command with that byte, or null. */
  function GetByValue(b: bv8): Option<CommandType> {
    AssociateBy(Entries, Value, b)
  }

  /** The nine command bytes are pairwise distinct. */
  lemma ValuesDistinct()
    ensures DistinctKeys(Entries, Value)
  {
  }

  /** Looking a command up by its own byte gives it back. */
  lemma GetByValueOfValue(c: CommandType)
    ensures GetByValue(Value(c)) == Some(c)
  {
    ValuesDistinct();
    assert c in Entries;
    AssociateByFindsEntry(Entries, Value, c);
  }

  /** `getByValue` succeeds exactly on the bytes 0x02..0x0a; in particular 0x00 and 0x01 are not commands. */
  lemma GetByValueDomain(b: bv8)
    ensures GetByValue(b).Some? <==> 0x02 <= b <= 0x0a
    ensures GetByValue(0x00).None? && GetByValue(0x01).None?
  {
    if 0x02 <= b <= 0x0a {
      var c := Entries[(b - 0x02) as int];
      assert Value(c) == b;
      GetByValueOfValue(c);
    }
  }

  /** FLASH_BEGIN declares four 32-bit words; every other command declares none. */
  lemma DeclaredSizes(c: CommandType)
    ensures Size(c) == if c == FlashBegin then 4 * 4 else 0
    ensures 0 <= Size(c) < 0x8000
  {
  }

  /** Only FLASH_BEGIN has a concrete packet class. */
  lemma OnlyFlashBeginIsConcrete(c: CommandType)
    ensures Class(c) == BeginFlashPacketClass <==> c == FlashBegin
  {
  }
}
