/**
 * The identity of a device being updated and the status events reported
 * about it. Both are data classes, compared by value (they key a `HashMap`).
 */
module UpdateEvents {
  import opened FirmwareUpdateStatuses
  import opened FirmwareUpdateMethods

  /** The id carried by an `UpdateDeviceId<T>`: an `Int` tracker id or a `String` serial port. */
  datatype DeviceKey = NumericId(n: int) | PortId(port: string)

  /** `UpdateDeviceId(type, id)`, the `type` field named `updateMethod`: how the device is reached and which device it is. */
  datatype UpdateDeviceId = UpdateDeviceId(updateMethod: FirmwareUpdateMethod, id: DeviceKey)

  /** `UpdateStatusEvent(deviceId, status, progress)`. */
  datatype UpdateStatusEvent = UpdateStatusEvent(deviceId: UpdateDeviceId, status: FirmwareUpdateStatus, progress: int)

  /** The progress of an event constructed without one. */
  const DefaultProgress := 0

  /** `UpdateStatusEvent(deviceId, status)` with the default progress. */
  function Event(deviceId: UpdateDeviceId, status: FirmwareUpdateStatus): UpdateStatusEvent {
    UpdateStatusEvent(deviceId, status, DefaultProgress)
  }
}
