/** How a firmware image reaches the device: over the air or over a serial link. */
module FirmwareUpdateMethods {
  import opened Wrappers
  import opened EnumLookup

  datatype FirmwareUpdateMethod = Ota | Serial

  /** The enum's entries in declaration order. */
  const Entries: seq<FirmwareUpdateMethod> := [Ota, Serial]

  /** The `id` each entry is declared with. */
  function Id(m: FirmwareUpdateMethod): int {
    match m
    case Ota => 0
    case Serial => 1
  }

  /** `getById`: the entry with that id, or null. */
  function GetById(id: int): Option<FirmwareUpdateMethod> {
    AssociateBy(Entries, Id, id)
  }

  /** Looking a method up by its own id gives it back. */
  lemma GetByIdOfId(m: FirmwareUpdateMethod)
    ensures GetById(Id(m)) == Some(m)
  {
    assert DistinctKeys(Entries, Id);
    assert m in Entries;
    AssociateByFindsEntry(Entries, Id, m);
  }

  /** 0 is OTA, 1 is SERIAL, and every other id is null. */
  lemma GetByIdTable(id: int)
    ensures GetById(id) == if id == 0 then Some(Ota) else if id == 1 then Some(Serial) else None
  {
    GetByIdOfId(Ota);
    GetByIdOfId(Serial);
  }
}
