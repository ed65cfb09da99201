/**
 * The server's firmware update handler: the map of devices being updated,
 * the listeners told about every status change, the LRU cache of firmware
 * downloads shared by update tasks, and the decisions the update pipeline
 * takes once the firmware is (or is not) at hand.
 *
 * Every call is one atomic step. The asynchronous pipeline is split into the
 * two points where it acts: `RunPipeline`, the body run once the download
 * future has a value, and `CompletePipeline`, the `whenComplete` callback,
 * whose `TimedOut` case stands for the one-minute `orTimeout`.
 */
module FirmwareUpdateHandlers {
  import opened Wrappers
  import opened Sequences
  import opened FirmwareUpdateStatuses
  import opened FirmwareUpdateMethods
  import opened UpdateEvents
  import LruCache

  /** A registered `FirmwareUpdateListener`, compared by identity. */
  type ListenerId = nat

  /** The size of the firmware cache. */
  const FirmwareCacheCapacity := 5

  /** The future of one download of `url`; `serial` tells apart two downloads of the same URL. */
  datatype Download = Download(url: string, serial: nat)

  /** One update pipeline started by `startFirmwareUpdateTask`, waiting on `download`. */
  datatype Pipeline = Pipeline(url: string, updateMethod: FirmwareUpdateMethod, deviceId: UpdateDeviceId, download: Download)

  /** What `firmwareFuture.get()` gives the pipeline: it throws, or it returns the bytes or null. */
  datatype Fetch = FetchThrew | Fetched(firmware: Option<seq<bv8>>)

  /** An `OTAUpdateTask` handed the firmware for the UDP device `udpDevice`. */
  datatype OtaTask = OtaTask(firmware: seq<bv8>, deviceId: UpdateDeviceId, udpDevice: int)

  /** How the pipeline body ends: it reported one event, it handed over to an OTA task, or it threw. */
  datatype BodyEnd = Emitted(event: UpdateStatusEvent) | OtaStarted(task: OtaTask) | Threw

  /** How the pipeline future completed, as seen by `whenComplete`. */
  datatype Completion = CompletedNormally | TimedOut | CompletedExceptionally

  /** The tracker statuses the reconnection check distinguishes. */
  datatype TrackerStatus = Disconnected | Ok | OtherStatus

  /** The device of a tracker: a `UDPDevice` with its id, or any other kind. */
  datatype Device = UdpDevice(id: int) | OtherDevice

  // ----- the map of devices being updated -----

  /** Each tracked entry is stored under its own device id and is neither DONE nor an error. */
  ghost predicate WellFormed(m: map<UpdateDeviceId, UpdateStatusEvent>) {
    forall k :: k in m ==> m[k].deviceId == k && !IsTerminal(m[k].status)
  }

  /**
   * `onStatusChange`'s map update: store the event under its device id, then
   * remove that id again when the status is DONE or an error. A device is
   * tracked afterwards exactly when the status is not terminal, whatever was
   * tracked before, and no other entry changes.
   */
  function Track(m: map<UpdateDeviceId, UpdateStatusEvent>, e: UpdateStatusEvent): (r: map<UpdateDeviceId, UpdateStatusEvent>)
    ensures e.deviceId in r <==> !IsTerminal(e.status)
    ensures e.deviceId in r ==> r[e.deviceId] == e
    ensures forall k :: k != e.deviceId ==> (k in r <==> k in m) && (k in m ==> r[k] == m[k])
    ensures WellFormed(m) ==> WellFormed(r)
  {
    var put := m[e.deviceId := e];
    if IsTerminal(e.status) then put - {e.deviceId} else put
  }

  /** The map after a sequence of events, in order. */
  function TrackAll(m: map<UpdateDeviceId, UpdateStatusEvent>, es: seq<UpdateStatusEvent>): map<UpdateDeviceId, UpdateStatusEvent>
    decreases es
  {
    if es == [] then m else TrackAll(Track(m, es[0]), es[1..])
  }

  /**
   * An event that arrives after the device was untracked, for example after
   * ERROR_TIMEOUT, tracks it again unless it is terminal itself.
   */
  lemma LateEventTracksAgain(m: map<UpdateDeviceId, UpdateStatusEvent>, d: UpdateDeviceId, s: FirmwareUpdateStatus)
    ensures d !in Track(m, Event(d, ErrorTimeout))
    ensures d in Track(Track(m, Event(d, ErrorTimeout)), Event(d, s)) <==> !IsTerminal(s)
  {
    assert IsTerminal(ErrorTimeout);
  }

  // ----- the pipeline's decisions -----

  /** `startOtaUpdate`: hand over to an OTA task when a UDP device has the id, else report it missing. */
  function OtaEnd(firmware: seq<bv8>, deviceId: UpdateDeviceId, udpIds: set<int>): BodyEnd
    requires deviceId.id.NumericId?
  {
    if deviceId.id.n in udpIds then OtaStarted(OtaTask(firmware, deviceId, deviceId.id.n))
    else Emitted(Event(deviceId, ErrorDeviceNotFound))
  }

  /**
   * The pipeline body once `firmwareFuture.get()` returns or throws: null gives
   * ERROR_DOWNLOAD_FAILED; OTA continues with the device id re-tagged as OTA,
   * provided the id is an `Int`; a non-`Int` OTA id and SERIAL (a `TODO`) throw.
   */
  function BodyEndOf(p: Pipeline, fetch: Fetch, udpIds: set<int>): BodyEnd {
    match fetch
    case FetchThrew => Threw
    case Fetched(None) => Emitted(Event(p.deviceId, ErrorDownloadFailed))
    case Fetched(Some(firmware)) =>
      match p.updateMethod
      case Ota =>
        (match p.deviceId.id
         case PortId(_) => Threw
         case NumericId(n) => OtaEnd(firmware, UpdateDeviceId(Ota, NumericId(n)), udpIds))
      case Serial => Threw
  }

  /** The body's end as the pipeline future's completion. */
  function CompletionOf(end: BodyEnd): Completion {
    if end.Threw? then CompletedExceptionally else CompletedNormally
  }

  /** `whenComplete`: a timeout reports ERROR_TIMEOUT, any other failure ERROR_UNKNOWN, success nothing. */
  function CompletionEvent(deviceId: UpdateDeviceId, c: Completion): Option<UpdateStatusEvent> {
    match c
    case CompletedNormally => None
    case TimedOut => Some(Event(deviceId, ErrorTimeout))
    case CompletedExceptionally => Some(Event(deviceId, ErrorUnknown))
  }

  /** The events a pipeline reports when it runs to the end within the timeout. */
  function RunEvents(p: Pipeline, fetch: Fetch, udpIds: set<int>): seq<UpdateStatusEvent> {
    var end := BodyEndOf(p, fetch, udpIds);
    (if end.Emitted? then [end.event] else [])
      + (match CompletionEvent(p.deviceId, CompletionOf(end)) case None => [] case Some(e) => [e])
  }

  /**
   * The status a pipeline that runs to the end reports, case by case; every
   * one is an error, and only a found OTA device reports nothing (its OTA
   * task reports from then on).
   */
  lemma PipelineStatuses(p: Pipeline, fetch: Fetch, udpIds: set<int>)
    ensures forall e :: e in RunEvents(p, fetch, udpIds) ==> IsError(e.status)
    ensures |RunEvents(p, fetch, udpIds)| <= 1
    ensures fetch == FetchThrew ==> RunEvents(p, fetch, udpIds) == [Event(p.deviceId, ErrorUnknown)]
    ensures fetch == Fetched(None) ==> RunEvents(p, fetch, udpIds) == [Event(p.deviceId, ErrorDownloadFailed)]
    ensures fetch.Fetched? && fetch.firmware.Some? && p.updateMethod == Serial ==>
      RunEvents(p, fetch, udpIds) == [Event(p.deviceId, ErrorUnknown)]
    ensures fetch.Fetched? && fetch.firmware.Some? && p.updateMethod == Ota && p.deviceId.id.PortId? ==>
      RunEvents(p, fetch, udpIds) == [Event(p.deviceId, ErrorUnknown)]
    ensures fetch.Fetched? && fetch.firmware.Some? && p.updateMethod == Ota && p.deviceId.id.NumericId? ==>
      if p.deviceId.id.n in udpIds then RunEvents(p, fetch, udpIds) == []
      else RunEvents(p, fetch, udpIds) == [Event(UpdateDeviceId(Ota, p.deviceId.id), ErrorDeviceNotFound)]
  {
  }

  /**
   * After a pipeline runs to the end, its device is still tracked only when
   * an OTA task took over, or when the error went to the OTA-tagged id and
   * not to the device's own (a non-OTA id with an `Int` on the OTA path).
   */
  lemma {:induction false} PipelineTracking(m: map<UpdateDeviceId, UpdateStatusEvent>, p: Pipeline, fetch: Fetch, udpIds: set<int>)
    ensures var end := BodyEndOf(p, fetch, udpIds);
      p.deviceId in TrackAll(m, RunEvents(p, fetch, udpIds)) <==>
        p.deviceId in m && (end.OtaStarted? || (end.Emitted? && end.event.deviceId != p.deviceId))
    ensures p.deviceId.updateMethod == p.updateMethod ==>
      (p.deviceId in TrackAll(m, RunEvents(p, fetch, udpIds)) <==> p.deviceId in m && BodyEndOf(p, fetch, udpIds).OtaStarted?)
  {
    var es := RunEvents(p, fetch, udpIds);
    PipelineStatuses(p, fetch, udpIds);
    if es != [] {
      assert es[1..] == [];
      assert TrackAll(m, es) == Track(m, es[0]);
    }
  }

  /** The cached futures are downloads of their own URL, each one logged in `downloads` under its serial. */
  ghost predicate CachedDownloads(entries: seq<(string, Download)>, downloads: seq<string>) {
    forall e :: e in entries ==> e.1.url == e.0 && e.1.serial < |downloads| && downloads[e.1.serial] == e.0
  }

  /** The effect of one `getOrPut` on the firmware cache: the future used, the download log and the cache after. */
  datatype CacheStep = CacheStep(download: Download, downloads: seq<string>, entries: seq<(string, Download)>)

  /**
   * `firmwareCache.getOrPut(url) { downloadFirmware(url) }`: a cached URL gives
   * its future and moves to the most recently used end; an uncached one starts
   * download number `|downloads|` and caches it, possibly evicting the least
   * recently used URL.
   */
  function GetOrDownload(entries: seq<(string, Download)>, downloads: seq<string>, url: string): (r: CacheStep)
    ensures r.downloads == downloads <==> url in LruCache.KeysOf(entries)
  {
    LruCache.LookupPresent(entries, url);
    match LruCache.Lookup(entries, url)
    case Some(d) => CacheStep(d, downloads, LruCache.Touch(entries, url))
    case None =>
      var started := Download(url, |downloads|);
      CacheStep(started, downloads + [url], LruCache.Store(entries, url, started, FirmwareCacheCapacity))
  }

  /**
   * A cache step on a consistent cache gives a future of the URL itself, keeps
   * the cache consistent, and leaves that future cached under the URL: a
   * cached URL keeps its future and starts nothing, an uncached one starts
   * exactly one download, logged at the end.
   */
  lemma GetOrDownloadFacts(entries: seq<(string, Download)>, downloads: seq<string>, url: string)
    requires CachedDownloads(entries, downloads)
    requires LruCache.DistinctKeys(entries) && |entries| <= FirmwareCacheCapacity
    ensures var r := GetOrDownload(entries, downloads, url);
      && r.download.url == url
      && CachedDownloads(r.entries, r.downloads)
      && LruCache.Lookup(r.entries, url) == Some(r.download)
      && LruCache.DistinctKeys(r.entries) && |r.entries| <= FirmwareCacheCapacity
      && (url in LruCache.KeysOf(entries) ==>
            r.download == LruCache.Lookup(entries, url).value && r.entries == LruCache.Touch(entries, url))
      && (url !in LruCache.KeysOf(entries) ==>
            && r.download == Download(url, |downloads|) && r.downloads == downloads + [url]
            && r.entries == LruCache.Store(entries, url, r.download, FirmwareCacheCapacity))
  {
    var r := GetOrDownload(entries, downloads, url);
    LruCache.LookupPresent(entries, url);
    LruCache.LookupMember(entries, url);
    LruCache.StoreTouchMembers(entries, url, Download(url, |downloads|), FirmwareCacheCapacity);
    LruCache.TouchFacts(entries, url);
    LruCache.StoreFacts(entries, url, Download(url, |downloads|), FirmwareCacheCapacity);
    if url in LruCache.KeysOf(entries) {
      LruCache.LookupPresent(r.entries, url);
      var i := |entries| - 1;
      assert r.entries[i] == (url, r.download);
    }
  }

  /** `listeners.forEach { it.onUpdateStatusChange(event) }`: one call per listener, in order, after the calls made before. */
  method Notify(calls: seq<(ListenerId, UpdateStatusEvent)>, receivers: seq<ListenerId>, e: UpdateStatusEvent)
    returns (after: seq<(ListenerId, UpdateStatusEvent)>)
    ensures after == calls + PairEach(receivers, e)
  {
    after := calls;
    for i := 0 to |receivers|
      invariant after == calls + PairEach(receivers[..i], e)
    {
      assert receivers[..i + 1] == receivers[..i] + [receivers[i]];
      PairEachSnoc(receivers[..i], receivers[i], e);
      after := after + [(receivers[i], e)];
    }
    assert receivers[..|receivers|] == receivers;
  }

  class FirmwareUpdateHandler {
    var updatingDevices: map<UpdateDeviceId, UpdateStatusEvent>
    var listeners: seq<ListenerId>
    const firmwareCache: LruCache.LRUCache<string, Download>
    /** Every listener call made, in order: the listener and the event it was given. */
    var delivered: seq<(ListenerId, UpdateStatusEvent)>
    /** The URLs whose download was started, in order; a download's serial is its index here. */
    var downloads: seq<string>
    /** The pipelines started, in order. */
    var pipelines: seq<Pipeline>
    /** The OTA tasks handed over to, in order. */
    var otaTasks: seq<OtaTask>
    /** Every call of `startFirmwareUpdateTask`, with its arguments. */
    ghost var requests: seq<(string, FirmwareUpdateMethod, UpdateDeviceId)>

    ghost predicate Valid()
      reads this, firmwareCache
    {
      && firmwareCache.Valid()
      && firmwareCache.capacity == FirmwareCacheCapacity
      && WellFormed(updatingDevices)
      && CachedDownloads(firmwareCache.entries, downloads)
    }

    /** Between the two states exactly `e` was reported: the map updated and each listener called once, in order. */
    twostate predicate Reported(e: UpdateStatusEvent)
      reads this
    {
      && updatingDevices == Track(old(updatingDevices), e)
      && delivered == old(delivered) + PairEach(listeners, e)
      && listeners == old(listeners)
    }

    /** Between the two states nothing was reported. */
    twostate predicate Silent()
      reads this
    {
      && updatingDevices == old(updatingDevices)
      && delivered == old(delivered)
      && listeners == old(listeners)
    }

    constructor ()
      ensures Valid() && fresh(firmwareCache)
      ensures updatingDevices == map[] && listeners == [] && delivered == []
      ensures downloads == [] && pipelines == [] && otaTasks == [] && requests == []
      ensures firmwareCache.entries == []
    {
      updatingDevices := map[];
      listeners := [];
      firmwareCache := new LruCache.LRUCache<string, Download>(FirmwareCacheCapacity);
      delivered := [];
      downloads := [];
      pipelines := [];
      otaTasks := [];
      requests := [];
    }

    /** `addListener`: register at the end. */
    method AddListener(channel: ListenerId)
      requires Valid()
      modifies this
      ensures Valid()
      ensures listeners == old(listeners) + [channel]
      ensures updatingDevices == old(updatingDevices) && delivered == old(delivered)
      ensures downloads == old(downloads) && pipelines == old(pipelines) && otaTasks == old(otaTasks) && requests == old(requests)
    {
      listeners := listeners + [channel];
    }

    /** `removeListener`: drop every registration of the listener. */
    method RemoveListener(channel: ListenerId)
      requires Valid()
      modifies this
      ensures Valid()
      ensures listeners == RemoveAll(old(listeners), channel)
      ensures channel !in listeners
      ensures updatingDevices == old(updatingDevices) && delivered == old(delivered)
      ensures downloads == old(downloads) && pipelines == old(pipelines) && otaTasks == old(otaTasks) && requests == old(requests)
    {
      RemoveAllCounts(listeners, channel);
      listeners := RemoveAll(listeners, channel);
    }

    /** `onStatusChange`: update the map, then call every listener with the event, in registration order. */
    method OnStatusChange(e: UpdateStatusEvent)
      requires Valid()
      modifies this
      ensures Valid()
      ensures Reported(e)
      ensures downloads == old(downloads) && pipelines == old(pipelines) && otaTasks == old(otaTasks) && requests == old(requests)
    {
      updatingDevices := updatingDevices[e.deviceId := e];
      if IsTerminal(e.status) {
        updatingDevices := updatingDevices - {e.deviceId};
      }
      delivered := Notify(delivered, listeners, e);
    }

    /**
     * `startFirmwareUpdateTask`: a device already being updated is skipped with
     * no effect at all. Otherwise DOWNLOADING is reported, the download future
     * is taken from the cache under the URL or, when absent, a new download is
     * started and cached, and the pipeline waiting on it is started.
     */
    method StartFirmwareUpdateTask(firmwareUrl: string, updateMethod: FirmwareUpdateMethod, deviceId: UpdateDeviceId)
      returns (p: Option<Pipeline>)
      requires Valid()
      modifies this, firmwareCache
      ensures Valid()
      ensures requests == old(requests) + [(firmwareUrl, updateMethod, deviceId)]
      ensures otaTasks == old(otaTasks)
      ensures deviceId in old(updatingDevices) ==>
        && p == None
        && Silent()
        && downloads == old(downloads) && pipelines == old(pipelines)
        && firmwareCache.entries == old(firmwareCache.entries)
      ensures deviceId !in old(updatingDevices) ==>
        var step := GetOrDownload(old(firmwareCache.entries), old(downloads), firmwareUrl);
        && p == Some(Pipeline(firmwareUrl, updateMethod, deviceId, step.download))
        && step.download.url == firmwareUrl
        && Reported(Event(deviceId, Downloading))
        && updatingDevices[deviceId] == Event(deviceId, Downloading)
        && downloads == step.downloads
        && pipelines == old(pipelines) + [p.value]
        && firmwareCache.entries == step.entries
    {
      requests := requests + [(firmwareUrl, updateMethod, deviceId)];
      if deviceId in updatingDevices {
        return None;
      }
      OnStatusChange(Event(deviceId, Downloading));
      var download := FirmwareFuture(firmwareUrl);
      p := Some(Pipeline(firmwareUrl, updateMethod, deviceId, download));
      pipelines := pipelines + [p.value];
    }

    /**
     * `firmwareCache.getOrPut(firmwareUrl) { ... }`: the cached future of the
     * URL, or a new download, logged and cached, when the URL is not cached.
     */
    method FirmwareFuture(firmwareUrl: string) returns (download: Download)
      requires Valid()
      modifies this, firmwareCache
      ensures Valid()
      ensures var step := GetOrDownload(old(firmwareCache.entries), old(downloads), firmwareUrl);
        && download == step.download && download.url == firmwareUrl
        && downloads == step.downloads && firmwareCache.entries == step.entries
      ensures updatingDevices == old(updatingDevices) && listeners == old(listeners) && delivered == old(delivered)
      ensures pipelines == old(pipelines) && otaTasks == old(otaTasks) && requests == old(requests)
    {
      var newDownload := Download(firmwareUrl, |downloads|);
      GetOrDownloadFacts(firmwareCache.entries, downloads, firmwareUrl);
      LruCache.LookupPresent(firmwareCache.entries, firmwareUrl);
      var invoked;
      download, invoked := firmwareCache.GetOrPut(firmwareUrl, newDownload);
      if invoked {
        downloads := downloads + [firmwareUrl];
      }
    }

    /** `startOtaUpdate`: hand over to an OTA task when a UDP device has the id, else report ERROR_DEVICE_NOT_FOUND. */
    method StartOtaUpdate(firmware: seq<bv8>, deviceId: UpdateDeviceId, udpIds: set<int>)
      requires Valid() && deviceId.id.NumericId?
      modifies this
      ensures Valid()
      ensures var end := OtaEnd(firmware, deviceId, udpIds);
        && (end.Emitted? ==> Reported(end.event) && otaTasks == old(otaTasks))
        && (end.OtaStarted? ==> Silent() && otaTasks == old(otaTasks) + [end.task])
      ensures downloads == old(downloads) && pipelines == old(pipelines) && requests == old(requests)
    {
      var id := deviceId.id.n;
      if id !in udpIds {
        OnStatusChange(Event(deviceId, ErrorDeviceNotFound));
        return;
      }
      otaTasks := otaTasks + [OtaTask(firmware, deviceId, id)];
    }

    /** The pipeline body, run once `firmwareFuture.get()` returns or throws; the result is how it completed. */
    method RunPipeline(p: Pipeline, fetch: Fetch, udpIds: set<int>) returns (completion: Completion)
      requires Valid()
      modifies this
      ensures Valid()
      ensures var end := BodyEndOf(p, fetch, udpIds);
        && completion == CompletionOf(end)
        && (end.Emitted? ==> Reported(end.event) && otaTasks == old(otaTasks))
        && (end.OtaStarted? ==> Silent() && otaTasks == old(otaTasks) + [end.task])
        && (end.Threw? ==> Silent() && otaTasks == old(otaTasks))
      ensures downloads == old(downloads) && pipelines == old(pipelines) && requests == old(requests)
    {
      match fetch {
        case FetchThrew =>
          completion := CompletedExceptionally;
        case Fetched(None) =>
          OnStatusChange(Event(p.deviceId, ErrorDownloadFailed));
          completion := CompletedNormally;
        case Fetched(Some(firmware)) =>
          match p.updateMethod {
            case Ota =>
              match p.deviceId.id {
                case PortId(_) =>
                  completion := CompletedExceptionally;
                case NumericId(n) =>
                  StartOtaUpdate(firmware, UpdateDeviceId(Ota, NumericId(n)), udpIds);
                  completion := CompletedNormally;
              }
            case Serial =>
              completion := CompletedExceptionally;
          }
      }
    }

    /** The `whenComplete` callback of a pipeline. */
    method CompletePipeline(p: Pipeline, completion: Completion)
      requires Valid()
      modifies this
      ensures Valid()
      ensures var e := CompletionEvent(p.deviceId, completion);
        && (e.None? ==> Silent())
        && (e.Some? ==> Reported(e.value))
      ensures downloads == old(downloads) && pipelines == old(pipelines) && otaTasks == old(otaTasks) && requests == old(requests)
    {
      match completion {
        case CompletedNormally =>
        case TimedOut =>
          OnStatusChange(Event(p.deviceId, ErrorTimeout));
        case CompletedExceptionally =>
          OnStatusChange(Event(p.deviceId, ErrorUnknown));
      }
    }

    /**
     * `onTrackerStatusChanged`: for a UDP device, find a tracked key with the
     * same id (`chosen`; which one, when several match, is the map's iteration
     * order); if its entry is REBOOTING and the tracker went from DISCONNECTED
     * to OK, report DONE for it. Every other case changes nothing.
     */
    method OnTrackerStatusChanged(device: Device, oldStatus: TrackerStatus, newStatus: TrackerStatus)
      returns (chosen: Option<UpdateDeviceId>)
      requires Valid()
      modifies this
      ensures Valid()
      ensures device.OtherDevice? ==> chosen == None
      ensures device.UdpDevice? ==>
        (chosen == None <==> forall k :: k in old(updatingDevices) ==> k.id != NumericId(device.id))
      ensures chosen.Some? ==> chosen.value in old(updatingDevices) && device.UdpDevice? && chosen.value.id == NumericId(device.id)
      ensures if chosen.Some? && old(updatingDevices)[chosen.value].status == Rebooting
          && oldStatus == Disconnected && newStatus == Ok
        then Reported(Event(chosen.value, Done))
        else Silent()
      ensures downloads == old(downloads) && pipelines == old(pipelines) && otaTasks == old(otaTasks) && requests == old(requests)
    {
      if device.OtherDevice? {
        return None;
      }
      var id := device.id;
      if !exists k :: k in updatingDevices && k.id == NumericId(id) {
        return None;
      }
      var deviceStatusKey :| deviceStatusKey in updatingDevices && deviceStatusKey.id == NumericId(id);
      chosen := Some(deviceStatusKey);
      var updateStatus := updatingDevices[deviceStatusKey];
      if updateStatus.status == Rebooting && oldStatus == Disconnected && newStatus == Ok {
        OnStatusChange(Event(updateStatus.deviceId, Done));
      }
    }
  }
}
