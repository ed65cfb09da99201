/**
 * The RPC bridge for firmware updates: an inbound `FirmwareUpdateRequest` is
 * validated into an update task or dropped, and every status event is sent
 * to every connection of every API server. FlatBuffers tables are modelled
 * as plain records.
 */
module RpcFirmwareUpdateHandlers {
  import opened Wrappers
  import opened Sequences
  import opened JvmBytes
  import FirmwareUpdateStatuses
  import FirmwareUpdateMethods
  import opened UpdateEvents
  import opened FirmwareUpdateHandlers

  /** The request's `FirmwareDeviceId` union: a `DeviceIdTable`, a `SerialDeviceId`, or any other tag. */
  datatype FirmwareDeviceId = DeviceIdTable(id: int) | SerialDeviceId(port: string) | OtherTag(tag: bv8)

  /** The fields of a `FirmwareUpdateRequest` the handler reads. */
  datatype FirmwareUpdateRequest = FirmwareUpdateRequest(flashingMethod: int, deviceId: FirmwareDeviceId, firmwareUrl: string)

  /** The `IllegalStateException` of `createUpdateDeviceId`. */
  datatype InvalidState = InvalidState

  /**
   * The `FirmwareUpdateStatusResponse` fields that get a value: the status,
   * the device id's union tag and the progress byte.
   */
  datatype StatusResponse = StatusResponse(status: FirmwareUpdateStatuses.FirmwareUpdateStatus, deviceIdType: bv8, progress: bv8)

  /** An API connection. */
  type ConnectionId = nat

  /** `unpackUpdateDeviceId`: the union tag decides the method and the type of the id. */
  function UnpackUpdateDeviceId(d: FirmwareDeviceId): Option<UpdateDeviceId> {
    match d
    case DeviceIdTable(id) => Some(UpdateDeviceId(FirmwareUpdateMethods.Ota, NumericId(id)))
    case SerialDeviceId(port) => Some(UpdateDeviceId(FirmwareUpdateMethods.Serial, PortId(port)))
    case OtherTag(_) => None
  }

  /** The `startFirmwareUpdateTask` arguments an accepted request yields: the URL, the method and the device id. */
  function RequestTask(req: FirmwareUpdateRequest): Option<(string, FirmwareUpdateMethods.FirmwareUpdateMethod, UpdateDeviceId)> {
    match FirmwareUpdateMethods.GetById(req.flashingMethod)
    case None => None
    case Some(updateMethod) =>
      match UnpackUpdateDeviceId(req.deviceId)
      case None => None
      case Some(deviceId) => Some((req.firmwareUrl, updateMethod, deviceId))
  }

  /**
   * A request is accepted exactly when its `flashingMethod` is 0 or 1 and its
   * device id is a `DeviceIdTable` or a `SerialDeviceId`. The URL is passed on
   * unchanged; the method comes from `flashingMethod` and the device id's
   * method from the union tag, each on its own.
   */
  lemma RequestAcceptance(req: FirmwareUpdateRequest)
    ensures RequestTask(req).Some? <==> 0 <= req.flashingMethod <= 1 && !req.deviceId.OtherTag?
    ensures RequestTask(req).Some? ==>
      && RequestTask(req).value.0 == req.firmwareUrl
      && FirmwareUpdateMethods.Id(RequestTask(req).value.1) == req.flashingMethod
      && (req.deviceId.DeviceIdTable? ==> RequestTask(req).value.2 == UpdateDeviceId(FirmwareUpdateMethods.Ota, NumericId(req.deviceId.id)))
      && (req.deviceId.SerialDeviceId? ==> RequestTask(req).value.2 == UpdateDeviceId(FirmwareUpdateMethods.Serial, PortId(req.deviceId.port)))
  {
    FirmwareUpdateMethods.GetByIdTable(req.flashingMethod);
  }

  /** The two methods may disagree: SERIAL flashing of a `DeviceIdTable` id is forwarded as it is. */
  lemma MethodAndTagMayDisagree(port: int, url: string)
    ensures RequestTask(FirmwareUpdateRequest(1, DeviceIdTable(port), url))
      == Some((url, FirmwareUpdateMethods.Serial, UpdateDeviceId(FirmwareUpdateMethods.Ota, NumericId(port))))
  {
    FirmwareUpdateMethods.GetByIdTable(1);
  }

  /** `createUpdateDeviceId`: OTA needs an `Int` id and SERIAL a `String` one; the table it builds is discarded. */
  function CreateUpdateDeviceId(d: UpdateDeviceId): Result<(), InvalidState> {
    match d.updateMethod
    case Ota => if d.id.NumericId? then Success(()) else Failure(InvalidState)
    case Serial => if d.id.PortId? then Success(()) else Failure(InvalidState)
  }

  /** Every device id a request yields has the type its method requires. */
  lemma UnpackedIdsAreWellTyped(d: FirmwareDeviceId)
    ensures UnpackUpdateDeviceId(d).Some? ==> CreateUpdateDeviceId(UnpackUpdateDeviceId(d).value).Success?
    ensures forall id :: CreateUpdateDeviceId(id).Success? <==>
      (id.updateMethod == FirmwareUpdateMethods.Ota && id.id.NumericId?) || (id.updateMethod == FirmwareUpdateMethods.Serial && id.id.PortId?)
  {
  }

  /** The message `onUpdateStatusChange` sends for an event, or the failure of `createUpdateDeviceId`. */
  function StatusResponseOf(event: UpdateStatusEvent): Result<StatusResponse, InvalidState> {
    match CreateUpdateDeviceId(event.deviceId)
    case Failure(e) => Failure(e)
    case Success(_) =>
      Success(StatusResponse(
        FirmwareUpdateStatuses.Done,
        LowByte(FirmwareUpdateMethods.Id(event.deviceId.updateMethod)),
        LowByte(event.progress)))
  }

  /**
   * The outbound status is DONE whatever the event's status, the union tag is
   * the id of the device id's method, and the progress keeps its low 8 bits.
   */
  lemma StatusResponseFields(event: UpdateStatusEvent, other: FirmwareUpdateStatuses.FirmwareUpdateStatus)
    ensures StatusResponseOf(event).Success? <==> CreateUpdateDeviceId(event.deviceId).Success?
    ensures StatusResponseOf(event.(status := other)) == StatusResponseOf(event)
    ensures StatusResponseOf(event).Success? ==>
      var m := StatusResponseOf(event).value;
      && m.status == FirmwareUpdateStatuses.Done
      && m.deviceIdType as int == FirmwareUpdateMethods.Id(event.deviceId.updateMethod)
      && m.progress as int == event.progress % 0x100
      && (-0x80 <= event.progress < 0x80 ==> ToInt(m.progress) == event.progress)
  {
    ToIntOfLowByte(event.progress);
    ToIntOfLowByte(FirmwareUpdateMethods.Id(event.deviceId.updateMethod));
  }

  class RpcFirmwareUpdateHandler {
    const firmwareUpdateHandler: FirmwareUpdateHandler
    /** This handler as a listener of `firmwareUpdateHandler`. */
    const listenerId: ListenerId

    /** `init`: register as a listener of the firmware update handler. */
    constructor (handler: FirmwareUpdateHandler, id: ListenerId)
      requires handler.Valid()
      modifies handler
      ensures firmwareUpdateHandler == handler && listenerId == id
      ensures handler.Valid()
      ensures handler.listeners == old(handler.listeners) + [id]
      ensures handler.updatingDevices == old(handler.updatingDevices) && handler.delivered == old(handler.delivered)
      ensures handler.downloads == old(handler.downloads) && handler.pipelines == old(handler.pipelines)
      ensures handler.otaTasks == old(handler.otaTasks) && handler.requests == old(handler.requests)
      ensures handler.firmwareCache.entries == old(handler.firmwareCache.entries)
    {
      firmwareUpdateHandler := handler;
      listenerId := id;
      new;
      handler.AddListener(id);
    }

    /**
     * `onFirmwareUpdateRequest`: an accepted request makes exactly one
     * `startFirmwareUpdateTask` call with its arguments, whose effect is the
     * whole effect on the handler; a rejected one changes nothing. `p` is the
     * pipeline the call started, if any.
     */
    method OnFirmwareUpdateRequest(req: FirmwareUpdateRequest) returns (p: Option<Pipeline>)
      requires firmwareUpdateHandler.Valid()
      modifies firmwareUpdateHandler, firmwareUpdateHandler.firmwareCache
      ensures firmwareUpdateHandler.Valid()
      ensures firmwareUpdateHandler.requests ==
        old(firmwareUpdateHandler.requests) + (match RequestTask(req) case None => [] case Some(t) => [t])
      ensures RequestTask(req).None? ==> p == None && unchanged(firmwareUpdateHandler, firmwareUpdateHandler.firmwareCache)
      ensures RequestTask(req).Some? ==> firmwareUpdateHandler.otaTasks == old(firmwareUpdateHandler.otaTasks)
      ensures RequestTask(req).Some? && RequestTask(req).value.2 in old(firmwareUpdateHandler.updatingDevices) ==>
        && p == None
        && firmwareUpdateHandler.Silent()
        && firmwareUpdateHandler.downloads == old(firmwareUpdateHandler.downloads)
        && firmwareUpdateHandler.pipelines == old(firmwareUpdateHandler.pipelines)
        && firmwareUpdateHandler.firmwareCache.entries == old(firmwareUpdateHandler.firmwareCache.entries)
      ensures RequestTask(req).Some? && RequestTask(req).value.2 !in old(firmwareUpdateHandler.updatingDevices) ==>
        var t := RequestTask(req).value;
        var step := GetOrDownload(old(firmwareUpdateHandler.firmwareCache.entries), old(firmwareUpdateHandler.downloads), t.0);
        && p == Some(Pipeline(t.0, t.1, t.2, step.download))
        && firmwareUpdateHandler.Reported(Event(t.2, FirmwareUpdateStatuses.Downloading))
        && firmwareUpdateHandler.downloads == step.downloads
        && firmwareUpdateHandler.pipelines == old(firmwareUpdateHandler.pipelines) + [p.value]
        && firmwareUpdateHandler.firmwareCache.entries == step.entries
    {
      var flashing := FirmwareUpdateMethods.GetById(req.flashingMethod);
      if flashing.None? {
        return None;
      }
      var updateDeviceId := UnpackUpdateDeviceId(req.deviceId);
      if updateDeviceId.None? {
        return None;
      }
      p := firmwareUpdateHandler.StartFirmwareUpdateTask(req.firmwareUrl, flashing.value, updateDeviceId.value);
    }

    /** The inner `forEach` of `onUpdateStatusChange`: one send per connection of a server, in order. */
    method SendToConnections(sent: seq<(ConnectionId, StatusResponse)>, before: seq<ConnectionId>,
                             connections: seq<ConnectionId>, response: StatusResponse)
      returns (after: seq<(ConnectionId, StatusResponse)>)
      requires sent == PairEach(before, response)
      ensures after == PairEach(before + connections, response)
    {
      after := sent;
      for c := 0 to |connections|
        invariant after == PairEach(before + connections[..c], response)
      {
        assert before + connections[..c + 1] == (before + connections[..c]) + [connections[c]];
        PairEachSnoc(before + connections[..c], connections[c], response);
        after := after + [(connections[c], response)];
      }
      assert connections[..|connections|] == connections;
    }

    /**
     * `onUpdateStatusChange`: build the response once and send it to every
     * connection of every server, servers and connections in order; a device
     * id of the wrong type throws before anything is sent.
     */
    method OnUpdateStatusChange(event: UpdateStatusEvent, servers: seq<seq<ConnectionId>>)
      returns (r: Result<seq<(ConnectionId, StatusResponse)>, InvalidState>)
      ensures r.Failure? <==> CreateUpdateDeviceId(event.deviceId).Failure?
      ensures r.Success? ==> r.value == PairEach(Flatten(servers), StatusResponseOf(event).value)
      ensures r.Success? ==> forall i, j :: 0 <= i < |servers| && 0 <= j < |servers[i]| ==>
        (servers[i][j], StatusResponseOf(event).value) in r.value
    {
      var deviceIdType := LowByte(FirmwareUpdateMethods.Id(event.deviceId.updateMethod));
      var created := CreateUpdateDeviceId(event.deviceId);
      if created.Failure? {
        return Failure(InvalidState);
      }
      var response := StatusResponse(FirmwareUpdateStatuses.Done, deviceIdType, LowByte(event.progress));
      var sent: seq<(ConnectionId, StatusResponse)> := [];
      for s := 0 to |servers|
        invariant sent == PairEach(Flatten(servers[..s]), response)
      {
        sent := SendToConnections(sent, Flatten(servers[..s]), servers[s], response);
        assert servers[..s + 1] == servers[..s] + [servers[s]];
        FlattenSnoc(servers[..s], servers[s]);
      }
      assert servers[..|servers|] == servers;
      PairEachReachesAll(servers, response);
      r := Success(sent);
    }
  }
}
