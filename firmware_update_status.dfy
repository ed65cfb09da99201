/** The lifecycle states of one firmware update, their numeric ids and the error range. */
module FirmwareUpdateStatuses {
  import opened Wrappers
  import opened EnumLookup

  datatype FirmwareUpdateStatus =
    | Downloading
    | Authenticating
    | Uploading
    | Rebooting
    | Done
    | ErrorDeviceNotFound
    | ErrorTimeout
    | ErrorDownloadFailed
    | ErrorAuthenticationFailed
    | ErrorUploadFailed
    | ErrorUnknown

  /** The enum's entries in declaration order. */
  const Entries: seq<FirmwareUpdateStatus> := [
    Downloading, Authenticating, Uploading, Rebooting, Done,
    ErrorDeviceNotFound, ErrorTimeout, ErrorDownloadFailed,
    ErrorAuthenticationFailed, ErrorUploadFailed, ErrorUnknown
  ]

  /** The `id` each entry is declared with. */
  function Id(s: FirmwareUpdateStatus): int {
    match s
    case Downloading => 0
    case Authenticating => 1
    case Uploading => 2
    case Rebooting => 3
    case Done => 4
    case ErrorDeviceNotFound => 5
    case ErrorTimeout => 6
    case ErrorDownloadFailed => 7
    case ErrorAuthenticationFailed => 8
    case ErrorUploadFailed => 9
    case ErrorUnknown => 10
  }

  /** `isError()`: the id lies in the range 5..10. */
  predicate IsError(s: FirmwareUpdateStatus) {
    5 <= Id(s) <= 10
  }

  /** The test the update handler uses to drop a tracking entry: DONE or an error. */
  predicate IsTerminal(s: FirmwareUpdateStatus) {
    s == Done || IsError(s)
  }

  /** `getById`: the entry with that id, or null. */
  function GetById(id: int): Option<FirmwareUpdateStatus> {
    AssociateBy(Entries, Id, id)
  }

  lemma IdsDistinct()
    ensures DistinctKeys(Entries, Id)
  {
  }

  lemma EveryStatusIsAnEntry(s: FirmwareUpdateStatus)
    ensures s in Entries
  {
  }

  /** Looking a status up by its own id gives it back. */
  lemma GetByIdOfId(s: FirmwareUpdateStatus)
    ensures GetById(Id(s)) == Some(s)
  {
    IdsDistinct();
    EveryStatusIsAnEntry(s);
    AssociateByFindsEntry(Entries, Id, s);
  }

  /** `getById` succeeds exactly on 0..10, and what it finds carries the id asked for. */
  lemma GetByIdDomain(id: int)
    ensures GetById(id).Some? <==> 0 <= id <= 10
    ensures GetById(id).Some? ==> Id(GetById(id).value) == id
  {
    if 0 <= id <= 10 {
      var s := Entries[id];
      assert Id(s) == id;
      GetByIdOfId(s);
    }
  }

  /** The error statuses are exactly the six ERROR_ entries, ids 5 to 10. */
  lemma ErrorsAreTheErrorEntries(s: FirmwareUpdateStatus)
    ensures IsError(s) <==>
      s == ErrorDeviceNotFound || s == ErrorTimeout || s == ErrorDownloadFailed ||
      s == ErrorAuthenticationFailed || s == ErrorUploadFailed || s == ErrorUnknown
    ensures !IsError(Downloading) && !IsError(Authenticating) && !IsError(Uploading)
    ensures !IsError(Rebooting) && !IsError(Done)
  {
  }

  /** Terminal (DONE or an error) holds exactly for the ids from 4 up. */
  lemma TerminalIffIdAtLeastFour(s: FirmwareUpdateStatus)
    ensures IsTerminal(s) <==> Id(s) >= 4
  {
  }
}
