# SlimeVR server: firmware update core, modelled in Dafny

This project models the server side of SlimeVR's firmware updates and proves
what each part promises. There are four parts:

- **`LRUCache`**: a bounded map kept in access order. It evicts its eldest
  entry once an insertion takes the size past the capacity. The update
  handler uses it, with capacity 5, to share one download future per
  firmware URL.
- **Serial bootloader framing**:
  - the packet `Direction` and the `CommandType` table;
  - the SLIP escaping of `encodeSLIP`/`decodeSLIP`;
  - the XOR checksum;
  - the 8-byte header that `toByteArray` builds;
  - the direction and command lookups of `fromByteArray`;
  - the `FLASH_BEGIN` payload decoder of `BeginFlashPacket`.
- **`FirmwareUpdateHandler`**:
  - the map of devices being updated, and the listeners;
  - the duplicate-start check and the use of the firmware cache;
  - what the update pipeline reports for each outcome;
  - the reconnection rule that turns REBOOTING into DONE.
- **`RPCFirmwareUpdateHandler`**: checks an inbound `FirmwareUpdateRequest`. A valid one becomes an update task; any other is dropped. It also broadcasts every status event to every API connection.

## How the model is built

- **Bytes.** A byte is a `bv8`. Kotlin's `Byte.toInt()` sign-extends, and
  this is written out as `JvmBytes.ToInt`, with results in -128..127.
  `Int.toByte()` and `OutputStream.write(Int)` keep the low 8 bits
  (`JvmBytes.LowByte`). Big-endian integer encoding is done in integer
  arithmetic.
- **Classes.** The entities the source updates in place are classes whose
  methods change their fields: `LRUCache`, `ByteBuffer`, `BeginFlashPacket`,
  `FirmwareUpdateHandler` and `RpcFirmwareUpdateHandler`. The loops of the
  source are `for`/`while` loops with invariants: `encodeSLIP`, `decodeSLIP`,
  `calculateChecksum`, the listener fan-out and the nested broadcast. Each
  method is proved against a function of the old state.
- **The LRU map** is the sequence of its entries, least recently accessed
  first, with distinct keys. A ghost clock stamps every access. The
  invariant `InAccessOrder` says the sequence is ordered by those stamps, so
  the entry that is evicted is provably the least recently accessed one.
- **Atomic calls.** Each call is one atomic step: the map's lock and the
  `CopyOnWriteArrayList` only make it so.
- **The asynchronous pipeline** of `startFirmwareUpdateTask` becomes three
  steps:
  - `StartFirmwareUpdateTask` does the synchronous part and returns the
    pipeline it started.
  - `RunPipeline` is the body run once the download future has a value or
    has thrown.
  - `CompletePipeline` is the `whenComplete` callback. Its `TimedOut`
    outcome stands for the one-minute `orTimeout`.

  The pure functions `BodyEndOf`, `CompletionEvent` and `RunEvents` give the
  outcome table that the lemmas state.
- **Logs and inputs.** Listener calls, started downloads, started pipelines
  and OTA tasks are logs on the handler. The UDP devices the device manager
  knows are a set of ids passed in. The API servers' connections are a
  sequence of sequences of connection ids passed in.
- **Event types.** `UpdateDeviceId` and `UpdateStatusEvent` are not part of
  the source files modelled here. They are records with structural equality:
  the pair (method, id), and (device id, status, progress). The id is an
  `Int` or a `String` (`DeviceKey`). The default progress of a two-argument
  event is taken to be 0.

Where the code does not do what it evidently intends, the model follows the code:
- The escaping comparisons never match because of sign extension (see Findings).
- The outbound status is always DONE.
- The outbound union tag is the id of the device id's method.
- An event that arrives after a device was untracked tracks it again. This
  happens, for example, when the OTA task keeps reporting after ERROR_TIMEOUT.

## Model

All source paths are below `server/core/src/main/java/dev/slimevr/`; the table writes them in full.

| member | source | states |
|---|---|---|
| LruCache.LRUCache.constructor | server/core/src/main/java/dev/slimevr/util/LRUCache.kt:14-19 | A new cache is empty and keeps its capacity. |
| LruCache.LRUCache.Get | server/core/src/main/java/dev/slimevr/util/LRUCache.kt:28-35 | Returns the stored value, or null exactly when the key is absent. A present key becomes most recent (its stamp is the new clock). An absent key changes nothing at all. |
| LruCache.LRUCache.Put | server/core/src/main/java/dev/slimevr/util/LRUCache.kt:15-51 | The entries become `Store(old, key, value, capacity)` and the key gets the newest stamp. The cache invariant is kept: distinct keys, size at most the capacity, sequence in access order. |
| LruCache.LRUCache.GetOrPut | server/core/src/main/java/dev/slimevr/util/LRUCache.kt:62-69 | `defaultValue` runs exactly when the key is absent. A present key returns its value, stays with the same key set and becomes most recent. An absent key stores the default as most recent and returns it. |
| LruCache.LRUCache.Remove | server/core/src/main/java/dev/slimevr/util/LRUCache.kt:76-83 | The entries become those without the key; stamps and clock are untouched. |
| LruCache.LRUCache.Size | server/core/src/main/java/dev/slimevr/util/LRUCache.kt:90-97 | The size is the number of distinct keys held and never exceeds the capacity. |
| LruCache.LookupPresent | server/core/src/main/java/dev/slimevr/util/LRUCache.kt:31 | A lookup finds a value exactly when the key is held, and with distinct keys it is the value stored beside the key. |
| LruCache.TouchFacts | server/core/src/main/java/dev/slimevr/util/LRUCache.kt:28-35 | An access keeps every key, every value and the size. A present key moves to the most recent end; an absent key leaves the sequence as it is. |
| LruCache.StoreFacts | server/core/src/main/java/dev/slimevr/util/LRUCache.kt:15-51 | After a store the size is at most the capacity and keys stay distinct. The stored key holds the new value and is most recent; every other key keeps its value unless it was the evicted eldest. A present key is replaced with the size unchanged. An absent key is appended while there is room, else the eldest entry is dropped. No key other than the eldest is ever lost. |
| LruCache.StoreEvictsLeastRecent | server/core/src/main/java/dev/slimevr/util/LRUCache.kt:15-19 | A key that `put` loses is an old key whose last access is the earliest of all held keys. |
| LruCache.TouchKeepsAccessOrder | server/core/src/main/java/dev/slimevr/util/LRUCache.kt:15-35 | After an access, with the accessed key re-stamped, the entries are still ordered by last access. |
| LruCache.StoreKeepsAccessOrder | server/core/src/main/java/dev/slimevr/util/LRUCache.kt:15-51 | After a store, with the stored key re-stamped, the entries are still ordered by last access. |
| LruCache.RemoveFacts | server/core/src/main/java/dev/slimevr/util/LRUCache.kt:76-83 | Removal deletes only that key: other lookups are unchanged, the remaining entries keep their relative order (the sequence with the one entry cut out), and removing an absent key is a no-op. |
| LruCache.RemoveKeepsAccessOrder | server/core/src/main/java/dev/slimevr/util/LRUCache.kt:76-83 | Removing a key keeps the remaining entries in access order. |
| LruCache.SizeIsKeyCount | server/core/src/main/java/dev/slimevr/util/LRUCache.kt:93 | With distinct keys, the number of entries is the number of keys. |
| EnumLookup.AssociateBy | server/core/src/main/java/dev/slimevr/serial/flashing/CommandType.kt:24 | `associateBy` then a lookup: what is found is a declared entry with that key, and nothing is found exactly when no entry has the key. |
| EnumLookup.AssociateByFindsEntry | server/core/src/main/java/dev/slimevr/serial/flashing/CommandType.kt:20-24 | With distinct keys, an entry looked up by its own key is found. |
| Slip.DirectionGetByValueTable | server/core/src/main/java/dev/slimevr/serial/flashing/SLIP.kt:7-15 | `Direction.getByValue` gives REQUEST for 0x00, RESPONSE for 0x01 and null for every other byte. |
| Slip.DirectionGetByValueOfValue | server/core/src/main/java/dev/slimevr/serial/flashing/SLIP.kt:7-15 | Looking a direction up by its own value gives it back. |
| Slip.EncodeSlip | server/core/src/main/java/dev/slimevr/serial/flashing/SLIP.kt:22-42 | As written, the output is the input between two 0xC0 bytes, unescaped, so it always begins and ends with 0xC0. |
| Slip.DecodeSlip | server/core/src/main/java/dev/slimevr/serial/flashing/SLIP.kt:44-61 | As written, decoding returns its input unchanged. It never fails and strips no delimiter, so decoding an encoded `x` gives `[0xC0] + x + [0xC0]`. |
| JvmBytes.ToIntBelow128 | server/core/src/main/java/dev/slimevr/serial/flashing/SLIP.kt:26-49 | A sign-extended byte never equals an `Int` literal of 0x80 or more, such as 0xC0 or 0xDB. |
| JvmBytes.LowByteOfToInt | server/core/src/main/java/dev/slimevr/serial/flashing/SLIP.kt:37-56 | `write(byte.toInt())` writes the byte itself. |
| Slip.CalculateChecksum | server/core/src/main/java/dev/slimevr/serial/flashing/SLIP.kt:63-69 | The checksum is 0xEF XOR-ed with every byte; no bytes gives 0xEF. |
| Slip.XorAllConcat | server/core/src/main/java/dev/slimevr/serial/flashing/SLIP.kt:65-67 | The XOR of two byte strings joined is the XOR of their XORs. |
| Slip.ChecksumIgnoresOrder | server/core/src/main/java/dev/slimevr/serial/flashing/SLIP.kt:63-69 | Two byte strings with the same bytes in any order have the same checksum. |
| Slip.ReadHeaderAccepts | server/core/src/main/java/dev/slimevr/serial/flashing/SLIP.kt:86-91 | Reading the header succeeds exactly when the first byte is 0x00 or 0x01 and the second is in 0x02..0x0a. An empty buffer underflows. Any other first byte fails with "unknown direction". After a known direction, a missing second byte underflows and an unknown one fails with "unknown command". |
| Slip.AsWrittenFrameIsRejected | server/core/src/main/java/dev/slimevr/serial/flashing/SLIP.kt:24-90 | As written, every frame read back fails with "unknown direction" on its leading 0xC0. |
| Slip.AsWrittenEndIsNotEscaped | server/core/src/main/java/dev/slimevr/serial/flashing/SLIP.kt:26-30 | The byte string [0xC0] shows the escaping bug. As written it frames to END END END, which the intended decoder rejects; the intended frame is END ESC ESC_END END. |
| Slip.EscapedHasNoEnd | server/core/src/main/java/dev/slimevr/serial/flashing/SLIP.kt:26-35 | With the intended escaping, no 0xC0 is left inside a frame. |
| Slip.IntendedRoundTrip | server/core/src/main/java/dev/slimevr/serial/flashing/SLIP.kt:22-61 | The intended RFC 1055 codec round-trips every byte string, including those holding 0xC0 or 0xDB. |
| Slip.IntendedHeaderRoundTrip | server/core/src/main/java/dev/slimevr/serial/flashing/SLIP.kt:75-91 | With the intended codec, the direction and command of a framed header are read back as written. |
| CommandTypes.ValuesDistinct | server/core/src/main/java/dev/slimevr/serial/flashing/CommandType.kt:9-17 | The nine command bytes are pairwise distinct. |
| CommandTypes.GetByValueOfValue | server/core/src/main/java/dev/slimevr/serial/flashing/CommandType.kt:9-24 | Looking a command up by its own byte gives it back. |
| CommandTypes.GetByValueDomain | server/core/src/main/java/dev/slimevr/serial/flashing/CommandType.kt:20-24 | `getByValue` finds a command exactly for 0x02..0x0a; 0x00 and 0x01 are not commands. |
| CommandTypes.DeclaredSizes | server/core/src/main/java/dev/slimevr/serial/flashing/CommandType.kt:7-17 | FLASH_BEGIN declares 16 bytes (four 32-bit words), every other command 0, and all sizes fit a `Short`. |
| CommandTypes.OnlyFlashBeginIsConcrete | server/core/src/main/java/dev/slimevr/serial/flashing/CommandType.kt:9-17 | Only FLASH_BEGIN maps to a concrete packet class. |
| JvmBytes.IntRoundTrip | server/core/src/main/java/dev/slimevr/serial/flashing/Packets.kt:16-19 | `getInt` reads back the signed 32-bit value `putInt` wrote. |
| JvmBytes.ShortBytesValue | server/core/src/main/java/dev/slimevr/serial/flashing/SLIP.kt:79 | A non-negative short is written big-endian with its own value. |
| JvmBytes.ByteBuffer.Get | server/core/src/main/java/dev/slimevr/serial/flashing/SLIP.kt:90-91 | `get()` returns the byte at the position and advances by one; with nothing left it underflows and does not move. |
| JvmBytes.ByteBuffer.GetInt | server/core/src/main/java/dev/slimevr/serial/flashing/Packets.kt:16-19 | `getInt()` returns the next four bytes as a big-endian signed value and advances by four; with fewer than four left it underflows and does not move. |
| Packets.HeaderLayout | server/core/src/main/java/dev/slimevr/serial/flashing/SLIP.kt:76-81 | The header is `8 + command.size` bytes long. Byte 0 is the direction. Byte 1 is the command. Bytes 2-3 hold the size, big-endian. Bytes 4-7 are zero, and so is the rest. |
| Packets.HeaderWrites | server/core/src/main/java/dev/slimevr/serial/flashing/SLIP.kt:76-81 | The four writes into a zero-filled buffer of `8 + command.size` bytes give exactly the header. |
| Packets.BeginFlashPacket.HeaderBuffer | server/core/src/main/java/dev/slimevr/serial/flashing/SLIP.kt:76-81 | The buffer built holds the header, with the position after the 8 header bytes. |
| Packets.BeginFlashPacket.constructor | server/core/src/main/java/dev/slimevr/serial/flashing/Packets.kt:5-13 | A new packet has command FLASH_BEGIN, direction REQUEST and the four fields at 0. |
| Packets.BeginFlashPacket.Decode | server/core/src/main/java/dev/slimevr/serial/flashing/Packets.kt:15-20 | Reads four big-endian signed words, in order, into firmware size, blocks, block size and offset, from the buffer's position. It succeeds exactly when 16 bytes remain, consuming exactly 16. Otherwise it underflows at the first word that does not fit, with the earlier words assigned. |
| Packets.BeginFlashPacket.Encode | server/core/src/main/java/dev/slimevr/serial/flashing/Packets.kt:22-24 | `encode` always fails with "not implemented". |
| Packets.BeginFlashPacket.ToByteArray | server/core/src/main/java/dev/slimevr/serial/flashing/SLIP.kt:75-84 | A FLASH_BEGIN packet never produces bytes: `encode` fails before framing. |
| Packets.BeginFlashPacket.FromByteArray | server/core/src/main/java/dev/slimevr/serial/flashing/SLIP.kt:86-91 | Decodes, then reads the direction (assigning the field) and the command. The result matches `ReadHeader` of the input, with its error cases; no other field changes. |
| Packets.FramedHeaderIsRejected | server/core/src/main/java/dev/slimevr/serial/flashing/SLIP.kt:75-91 | As written, a packet's own framed header is rejected with "unknown direction". |
| FirmwareUpdateStatuses.IdsDistinct | server/core/src/main/java/dev/slimevr/firmware/FirmwareUpdateStatus.kt:4-14 | The eleven status ids are pairwise distinct. |
| FirmwareUpdateStatuses.GetByIdOfId | server/core/src/main/java/dev/slimevr/firmware/FirmwareUpdateStatus.kt:3-25 | Looking a status up by its own id gives it back. |
| FirmwareUpdateStatuses.GetByIdDomain | server/core/src/main/java/dev/slimevr/firmware/FirmwareUpdateStatus.kt:21-25 | `getById` finds a status exactly for ids 0..10, and the status found has that id. |
| FirmwareUpdateStatuses.ErrorsAreTheErrorEntries | server/core/src/main/java/dev/slimevr/firmware/FirmwareUpdateStatus.kt:4-18 | `isError` holds exactly for the six ERROR_ statuses. DOWNLOADING, AUTHENTICATING, UPLOADING, REBOOTING and DONE are not errors. |
| FirmwareUpdateStatuses.TerminalIffIdAtLeastFour | server/core/src/main/java/dev/slimevr/firmware/FirmwareUpdateStatus.kt:8-18 | DONE-or-error holds exactly for the ids from 4 up. |
| FirmwareUpdateMethods.GetByIdOfId | server/core/src/main/java/dev/slimevr/firmware/FirmwareUpdateMethod.kt:3-11 | Looking a method up by its own id gives it back. |
| FirmwareUpdateMethods.GetByIdTable | server/core/src/main/java/dev/slimevr/firmware/FirmwareUpdateMethod.kt:4-11 | `getById(0)` is OTA, `getById(1)` is SERIAL and every other id gives null. |
| FirmwareUpdateHandlers.Track | server/core/src/main/java/dev/slimevr/firmware/FirmwareUpdateHandler.kt:115-117 | After the map update, the event's device is tracked exactly when the status is neither DONE nor an error, it is tracked with that event, no other entry changes, and a well-formed map stays well formed. |
| FirmwareUpdateHandlers.LateEventTracksAgain | server/core/src/main/java/dev/slimevr/firmware/FirmwareUpdateHandler.kt:115-117 | After ERROR_TIMEOUT untracks a device, a later event tracks it again exactly when that event is not terminal. |
| FirmwareUpdateHandlers.PipelineStatuses | server/core/src/main/java/dev/slimevr/firmware/FirmwareUpdateHandler.kt:34-111 | The statuses a pipeline reports, case by case. A throwing download gives ERROR_UNKNOWN; null firmware gives ERROR_DOWNLOAD_FAILED. SERIAL and a non-`Int` OTA id give ERROR_UNKNOWN. A missing UDP device gives ERROR_DEVICE_NOT_FOUND on the OTA-tagged id; a found one reports nothing. Every status reported is an error, and there is at most one. |
| FirmwareUpdateHandlers.PipelineTracking | server/core/src/main/java/dev/slimevr/firmware/FirmwareUpdateHandler.kt:34-117 | After a pipeline runs to the end, its device is still tracked exactly when it was tracked and an OTA task took over, or the error went to a differently tagged id. When the id's method is the pipeline's method, only a started OTA task keeps it tracked. |
| FirmwareUpdateHandlers.GetOrDownload | server/core/src/main/java/dev/slimevr/firmware/FirmwareUpdateHandler.kt:61-66 | A new download is logged exactly when the URL is not cached. |
| FirmwareUpdateHandlers.GetOrDownloadFacts | server/core/src/main/java/dev/slimevr/firmware/FirmwareUpdateHandler.kt:20-66 | The future used is a download of that URL and is cached under it afterwards. A cached URL keeps its future and starts nothing; an uncached one starts exactly one download, the next in the log. The cache stays consistent and within capacity 5. |
| FirmwareUpdateHandlers.Notify | server/core/src/main/java/dev/slimevr/firmware/FirmwareUpdateHandler.kt:119 | Every listener is called once with the event, in registration order, after the calls made before. |
| FirmwareUpdateHandlers.FirmwareUpdateHandler.constructor | server/core/src/main/java/dev/slimevr/firmware/FirmwareUpdateHandler.kt:18-20 | A new handler tracks nothing, has no listeners and an empty firmware cache of capacity 5. |
| FirmwareUpdateHandlers.FirmwareUpdateHandler.AddListener | server/core/src/main/java/dev/slimevr/firmware/FirmwareUpdateHandler.kt:22-24 | The listener is appended and nothing else changes. |
| FirmwareUpdateHandlers.FirmwareUpdateHandler.RemoveListener | server/core/src/main/java/dev/slimevr/firmware/FirmwareUpdateHandler.kt:26-28 | Every registration of the listener is removed, the others stay in order, and nothing else changes. |
| Sequences.RemoveAllCounts | server/core/src/main/java/dev/slimevr/firmware/FirmwareUpdateHandler.kt:27 | `removeIf` drops every copy of the element and keeps every other element as often as before; removing an absent element changes nothing. |
| Sequences.RemoveAllConcat | server/core/src/main/java/dev/slimevr/firmware/FirmwareUpdateHandler.kt:27 | Removing from a concatenation is the concatenation of the removals, so `removeIf` keeps the remaining elements in their order. |
| FirmwareUpdateHandlers.FirmwareUpdateHandler.OnStatusChange | server/core/src/main/java/dev/slimevr/firmware/FirmwareUpdateHandler.kt:114-120 | The map is updated as `Track` says. Then every listener is called once with the event, terminal or not, in registration order. |
| FirmwareUpdateHandlers.FirmwareUpdateHandler.StartFirmwareUpdateTask | server/core/src/main/java/dev/slimevr/firmware/FirmwareUpdateHandler.kt:45-66 | A device already tracked is skipped: no event, no cache access, no state change. Otherwise DOWNLOADING is reported and the device becomes tracked. The cache is consulted under the URL, and a pipeline is started on the future found or started. |
| FirmwareUpdateHandlers.FirmwareUpdateHandler.FirmwareFuture | server/core/src/main/java/dev/slimevr/firmware/FirmwareUpdateHandler.kt:61-66 | The cache step is the one `GetOrDownload` gives for the URL. |
| FirmwareUpdateHandlers.FirmwareUpdateHandler.StartOtaUpdate | server/core/src/main/java/dev/slimevr/firmware/FirmwareUpdateHandler.kt:34-43 | A known UDP id hands over to an OTA task and reports nothing. An unknown id reports ERROR_DEVICE_NOT_FOUND. |
| FirmwareUpdateHandlers.FirmwareUpdateHandler.RunPipeline | server/core/src/main/java/dev/slimevr/firmware/FirmwareUpdateHandler.kt:68-95 | The body reports the event `BodyEndOf` gives, or starts its OTA task, or throws silently. Its completion is `CompletionOf` that end. |
| FirmwareUpdateHandlers.FirmwareUpdateHandler.CompletePipeline | server/core/src/main/java/dev/slimevr/firmware/FirmwareUpdateHandler.kt:101-111 | A timeout reports ERROR_TIMEOUT, another failure ERROR_UNKNOWN, and a normal completion nothing. |
| FirmwareUpdateHandlers.FirmwareUpdateHandler.OnTrackerStatusChanged | server/core/src/main/java/dev/slimevr/firmware/FirmwareUpdateHandler.kt:122-133 | A non-UDP device, or one with no tracked key of its id, changes nothing. Otherwise a tracked key with the same id is chosen. DONE is reported for it only when its entry is REBOOTING and the tracker went from DISCONNECTED to OK; else nothing changes. |
| RpcFirmwareUpdateHandlers.RequestAcceptance | server/core/src/main/java/dev/slimevr/protocol/rpc/firmware/RPCFirmwareUpdateHandler.kt:26-80 | A request is accepted exactly when `flashingMethod` is 0 or 1 and the union tag is `DeviceIdTable` or `SerialDeviceId`. The URL is passed on unchanged and the method is the one with the request's id. A `DeviceIdTable` gives (OTA, numeric id); a `SerialDeviceId` gives (SERIAL, port). |
| RpcFirmwareUpdateHandlers.MethodAndTagMayDisagree | server/core/src/main/java/dev/slimevr/protocol/rpc/firmware/RPCFirmwareUpdateHandler.kt:29-36 | SERIAL flashing of a `DeviceIdTable` id is forwarded with an OTA-tagged id: the two methods are taken independently. |
| RpcFirmwareUpdateHandlers.UnpackedIdsAreWellTyped | server/core/src/main/java/dev/slimevr/protocol/rpc/firmware/RPCFirmwareUpdateHandler.kt:70-102 | `createUpdateDeviceId` fails exactly when an OTA id is not an `Int` or a SERIAL id is not a `String`, so never on an id a request yields. |
| RpcFirmwareUpdateHandlers.StatusResponseFields | server/core/src/main/java/dev/slimevr/protocol/rpc/firmware/RPCFirmwareUpdateHandler.kt:44-102 | A response is built exactly when `createUpdateDeviceId` succeeds. Its status is DONE, whatever the event's status. Its union tag is the id of the device id's method. Its progress keeps the low 8 bits (a byte-range progress reads back as itself). |
| RpcFirmwareUpdateHandlers.RpcFirmwareUpdateHandler.constructor | server/core/src/main/java/dev/slimevr/protocol/rpc/firmware/RPCFirmwareUpdateHandler.kt:21-24 | The bridge registers itself, once, at the end of the update handler's listeners. The map, the delivered calls, the downloads, the pipelines, the OTA tasks, the request log and the cache are unchanged. |
| RpcFirmwareUpdateHandlers.RpcFirmwareUpdateHandler.OnFirmwareUpdateRequest | server/core/src/main/java/dev/slimevr/protocol/rpc/firmware/RPCFirmwareUpdateHandler.kt:26-38 | A rejected request changes nothing and starts no pipeline. An accepted one makes exactly one `startFirmwareUpdateTask` call with the arguments `RequestTask` gives, and that call's effect is the whole effect. A device already tracked is skipped silently. Otherwise DOWNLOADING is reported, the cache step is `GetOrDownload` of the URL, and one pipeline on that download is started and returned. OTA tasks never change. |
| RpcFirmwareUpdateHandlers.RpcFirmwareUpdateHandler.SendToConnections | server/core/src/main/java/dev/slimevr/protocol/rpc/firmware/RPCFirmwareUpdateHandler.kt:63-65 | One send per connection of a server, in order, after the sends made before. |
| RpcFirmwareUpdateHandlers.RpcFirmwareUpdateHandler.OnUpdateStatusChange | server/core/src/main/java/dev/slimevr/protocol/rpc/firmware/RPCFirmwareUpdateHandler.kt:40-67 | A device id of the wrong type fails before anything is sent. Otherwise the same response goes to every connection of every server, servers and connections in order, with no filtering. |
| Sequences.FlattenMembers | server/core/src/main/java/dev/slimevr/protocol/rpc/firmware/RPCFirmwareUpdateHandler.kt:61-66 | A connection is in the flattened server list exactly when some server holds it. |
| Sequences.PairEachReachesAll | server/core/src/main/java/dev/slimevr/protocol/rpc/firmware/RPCFirmwareUpdateHandler.kt:61-66 | Every connection of every server gets the message. |

## Left out

- The `ReentrantLock` of `LRUCache` and the `CopyOnWriteArrayList` of listeners: every call is one atomic step, and interleavings are not modelled.
- `CompletableFuture.supplyAsync`, `orTimeout` and `whenComplete`: they become the explicit steps `RunPipeline` and `CompletePipeline`. The one-minute timeout is the `TimedOut` completion, not a clock. That the body can keep running after a timeout is covered only as later events fed into `OnStatusChange`.
- `downloadFirmware`: the HTTP download and its read loop are network I/O. A download is a logged URL, and its result is the `Fetch` given to `RunPipeline`. The real download never returns null, so ERROR_DOWNLOAD_FAILED cannot come from it; the model still covers that branch.
- `OTAUpdateTask`, `VRServer`, the device manager, `Tracker` and `UDPDevice` are not part of this model. The known UDP devices are a set of ids, an OTA task is a logged record, and tracker status is reduced to DISCONNECTED, OK and any other.
- The handler's `init` registration with `addTrackerStatusListener`, and the bridge's `registerPacketListener`, are not modelled: they register callbacks in code outside this model.
- FlatBuffers building and packing: messages are records. The device id table built by `createUpdateDeviceId` is discarded by the source (it returns `Unit`), so it is not carried. Numeric values of the `solarxr_protocol` enums are not modelled; the outbound status is the model's `Done`.
- Packets.BeginFlashPacket.FromByteArray: stops after the command lookup. The reflective packet construction, which throws for every command (`BeginFlashPacket` takes no argument and `Packet` is abstract), and the `decode` call after it, are not modelled.
- JvmBytes.ByteBuffer.Put: writes require room in the buffer, so the `BufferOverflowException` is not modelled; the header writes always fit.
- LruCache.LRUCache.constructor: a negative capacity, for which `LinkedHashMap` throws, is excluded by a precondition.
- LruCache.LRUCache.GetOrPut: a stored null value, which Kotlin's `getOrPut` treats as absent, is not modelled; the cache in this core never stores null.
- FirmwareUpdateHandlers.FirmwareUpdateHandler.OnTrackerStatusChanged: when several tracked keys share the id, which one is found depends on `HashMap` iteration order. The contract says only that some matching key is chosen.
- FirmwareUpdateHandlers.FirmwareUpdateHandler.RunPipeline and FirmwareUpdateHandlers.FirmwareUpdateHandler.CompletePipeline: the caller supplies the pipeline and its outcome. The model does not require the pipeline to be one that was started. It does not tie the fetch result to the shared download future, so two pipelines waiting on one future could be given different firmware. It does not stop `whenComplete` from running twice for one pipeline. No proved property depends on these three facts.
- FirmwareUpdateHandlers.Notify: a listener that throws would stop the fan-out; listeners are not modelled as throwing.
- `LRUCache.toString`, logging and `println`: output only.
- The GUI, `Transform.kt` and the code generation configuration are outside this core.

## Findings

| source | as written | input that shows it | evidently intended | confidence | as-written member | corrected member |
|---|---|---|---|---|---|---|
| server/core/src/main/java/dev/slimevr/serial/flashing/SLIP.kt:26-35 | `when (byte.toInt())` compares the sign-extended byte (-128..127) with 0xC0 and 0xDB (192, 219), so no byte is ever escaped | the byte string [0xC0] is framed as C0 C0 C0 | RFC 1055 escaping: 0xC0 becomes DB DC and 0xDB becomes DB DD, so END only delimits frames | high, not executed | Slip.AsWrittenEndIsNotEscaped | Slip.IntendedRoundTrip |
| server/core/src/main/java/dev/slimevr/serial/flashing/SLIP.kt:44-90 | `decodeSLIP` never recognises 0xDB, for the same reason, and keeps the END delimiters; `fromByteArray` then reads the leading 0xC0 as the direction | the framed header of any packet, such as REQUEST FLASH_BEGIN, fails with "unknown direction" | strip the END bytes and unescape, so a framed header reads back as written | high, not executed | Packets.FramedHeaderIsRejected | Slip.IntendedHeaderRoundTrip |

The packet methods (`EncodeSlip`, `DecodeSlip`, `ToByteArray`, `FromByteArray`)
model the code as written. The intended codec (`FrameIntended`,
`UnframeIntended`) stands beside them with its round trip proved. No packet
output depends on the difference: `ToByteArray` fails in `encode` before it
frames anything.
