# BeConnect chunked alert transfer, modelled in Dafny

BeConnect moves one emergency-alert record from a gateway to a nearby
phone over Bluetooth Low Energy. A gateway is either an Android phone
(`GattServer`, `BleAdvertiser`) or a Raspberry Pi (`ble_server.py` with its
store and command line). The receiver is an Android phone (`BleScanner`,
`GattClient`). The alert travels as a serialised record cut into 17-byte
chunks. Each chunk is sent as a frame `[index:2 big-endian][total:2
big-endian][payload]`. The receiver writes the index it wants to the
control characteristic, then reads the frame from the alert
characteristic.

This project models:

- **Frame codecs.** `Framing` is the language-independent definition of
  slicing, joining and the frame layout. `ChunkUtils` is the Kotlin codec:
  loops over arrays, proved against `Framing`. `Protocol` is the Python
  codec: pure functions that raise, modelled with `Result`.
- **The receiver.** `GattClient` holds the download loop of `downloadAlert`
  as a class with a `while` loop and an event log. The Bluetooth callbacks
  become a `Peer` value: whether the connection comes up, which
  characteristics the service offers, and for round i the write
  acknowledgement and the frame read. `BleScanner` is the discovery
  registry.
- **The gateways.** `GattServer` is the Android server callbacks;
  `BleServer` is the Pi's `RuntimeState` and its D-Bus characteristics.
  `BleAdvertiser` (Kotlin) and `Constants` (Python) build the 9-byte
  advertisement metadata. `Encoding` holds the JVM string hash and the
  byte orders.
- **The Pi's record keeping.** `AlertModel` covers validation, `to_dict`,
  `from_dict` and `build_alert`. `Storage` is the alert store, and `Cli` is
  `_bool_arg` and the `alert edit` merge.
- **The two sides together.** `Interop` runs the client loop against both
  gateways. The download returns the serialised alert from either gateway.
  The sides differ in the frame served past the last chunk, and in the
  string hash above the Basic Multilingual Plane. They also differ when a
  new alert is served: the Android `GattServer.start` keeps
  `requestedChunkIndex`, while the Pi's `update_alert` resets it to 0.

Bytes are integers 0..255. Kotlin `Int`/`Long` are ranges of `int`.
Wrap-around (`toByte()`, `toInt()`, 16-bit header fields) is written out
as `% 0x100`, `% 0x1_0000` and the two's-complement conversions of
`Encoding`.

The source loop of `downloadAlert` has no round limit. The model gives it
`fuel`, and running out of fuel is the extra outcome `Stalled`. Every
download result other than `Stalled` is the source's result, and the
honest-peer lemmas hold for every fuel at least the chunk count.

Where the code and its documentation disagree, the model follows the
code:

- The Pi's `java_string_hashcode` is named after the JVM's
  `String.hashCode`, but it hashes Unicode code points where the JVM
  hashes UTF-16 units.
- The advertisement's last field is documented as a truncated timestamp.
  Only Android truncates it; the Pi raises for a `fetchedAt` outside the
  signed 32-bit range.

## Model

| member | source | states |
|---|---|---|
| Framing.ConcatLength | app/src/main/java/com/beconnect/ble/ChunkUtils.kt:25-26 | the joined chunks are as long as the sum of the chunk sizes |
| Framing.ConcatAppend | pi_sender/src/beconnect_pi/protocol.py:17-18 | joining two runs of chunks is joining their joins |
| Framing.ConcatAt | app/src/main/java/com/beconnect/ble/ChunkUtils.kt:27-31 | chunk k sits in the joined bytes at the offset equal to the summed sizes of chunks 0..k-1 |
| Framing.SlicesRoundTrip | app/src/main/java/com/beconnect/ble/ChunkUtils.kt:14-33 | for a chunk size of at least 1, joining the slices of the data gives the data back |
| Framing.SlicesCount | app/src/main/java/com/beconnect/ble/ChunkUtils.kt:14-23 | the data yields ceil(length / size) slices, none for empty data |
| Framing.SlicesShape | app/src/main/java/com/beconnect/ble/ChunkUtils.kt:17-21 | every slice but the last is exactly `size` long; the last holds 1..size bytes |
| Framing.SlicesAt | pi_sender/src/beconnect_pi/protocol.py:14 | slice k starts inside the data and is `data[k*size : min(k*size+size, len)]` |
| Framing.Be16OfHiLo | app/src/main/java/com/beconnect/ble/ChunkUtils.kt:37-49 | writing a value as its high and low byte and reading them back gives the value mod 65536 |
| Framing.HiLoWrap | app/src/main/java/com/beconnect/ble/ChunkUtils.kt:37-38 | the two header bytes of a value repeat every 65536 |
| Framing.FrameOfFields | app/src/main/java/com/beconnect/ble/ChunkUtils.kt:45-52 | decoding any frame of 4 or more bytes and encoding its fields again rebuilds the frame |
| ChunkUtils.Chunk | app/src/main/java/com/beconnect/ble/ChunkUtils.kt:14-23 | the loop yields the slices of the data; they join back to the data and number ceil(length / size) |
| ChunkUtils.CopyInto | app/src/main/java/com/beconnect/ble/ChunkUtils.kt:29 | `copyInto` overwrites exactly the target range and keeps the rest of the array |
| ChunkUtils.Reassemble | app/src/main/java/com/beconnect/ble/ChunkUtils.kt:25-33 | the fresh array holds the chunks joined in order |
| ChunkUtils.EncodeChunk | app/src/main/java/com/beconnect/ble/ChunkUtils.kt:35-43 | the fresh buffer is the frame: index and total big-endian, then the payload |
| ChunkUtils.EncodeDecode | app/src/main/java/com/beconnect/ble/ChunkUtils.kt:35-52 | an encoded frame has 4 + payload bytes; it decodes to index mod 65536, total mod 65536 and the payload, and to index and total themselves when they fit in 16 bits |
| ChunkUtils.DecodeEncode | app/src/main/java/com/beconnect/ble/ChunkUtils.kt:45-52 | re-encoding the decoded fields of a frame of 4 or more bytes rebuilds it byte for byte |
| ChunkUtils.EncodeThenDecodeTest | app/src/test/java/com/beconnect/ChunkUtilsTest.kt:25-32 | the frame (3, 10, "test") decodes to 3, 10 and "test" |
| ChunkUtils.ChunkCountTest | app/src/test/java/com/beconnect/ChunkUtilsTest.kt:34-39 | 50 bytes in 17-byte chunks make 3 chunks of 17, 17 and 16 bytes |
| Protocol.ChunkIsSlices | pi_sender/src/beconnect_pi/protocol.py:14 | the list comprehension over `range(0, len, size)` cuts the same slices as the Kotlin loop |
| Protocol.Chunk | pi_sender/src/beconnect_pi/protocol.py:11-14 | raises exactly when the size is not positive; otherwise the slices join back to the data and number ceil(length / size) |
| Protocol.Reassemble | pi_sender/src/beconnect_pi/protocol.py:17-18 | the joined bytes are as long as the chunks together |
| Protocol.EncodeChunk | pi_sender/src/beconnect_pi/protocol.py:21-31 | raises exactly for a negative index or total; otherwise 4 + payload bytes that decode to index mod 65536, total mod 65536 and the payload |
| Protocol.DecodeChunkIndex | pi_sender/src/beconnect_pi/protocol.py:34-37 | raises exactly on frames shorter than 4 bytes |
| Protocol.DecodeTotalChunks | pi_sender/src/beconnect_pi/protocol.py:40-43 | raises exactly on frames shorter than 4 bytes |
| Protocol.DecodePayload | pi_sender/src/beconnect_pi/protocol.py:46-49 | raises exactly on frames shorter than 4 bytes; otherwise returns all but the 4 header bytes |
| Protocol.BuildFrames | pi_sender/src/beconnect_pi/protocol.py:56-59 | raises exactly for a non-positive chunk size; otherwise one frame per slice |
| Protocol.BuildFramesAt | pi_sender/src/beconnect_pi/protocol.py:56-59 | frame i decodes to index i mod 65536, the slice count mod 65536, and slice i |
| Protocol.BuildFramesDecode | pi_sender/src/beconnect_pi/protocol.py:56-59 | every frame carries its own position, the same total, and its slice |
| Protocol.BuildFramesRoundTrip | pi_sender/src/beconnect_pi/protocol.py:56-59 | the payloads decoded from all frames, joined in order, are the serialised alert |
| Protocol.DecodersAgree | pi_sender/src/beconnect_pi/protocol.py:1-49 | on frames of 4 or more bytes the Python and Kotlin decoders read the same fields; on 2- and 3-byte frames Kotlin reads an index where Python raises; for fields in 0..65535 both encoders write the same frame |
| Protocol.ProtocolTests | pi_sender/tests/test_protocol.py:11-34 | chunking then joining gives the data back for every positive size; 50 bytes at size 17 make 3 chunks |
| Encoding.Int32Views | pi_sender/src/beconnect_pi/constants.py:39-41 | the signed reading of 32 bits and the low-32-bit mask are inverse to each other |
| Encoding.HashAccIsPolyMod | pi_sender/src/beconnect_pi/constants.py:35-41 | masking the accumulator to 32 bits at every step gives the full hash polynomial mod 2^32 |
| Encoding.BmpUnitsArePoints | pi_sender/src/beconnect_pi/constants.py:37 | below U+10000 a string's UTF-16 units are its code points, so the two hashes iterate the same values |
| Encoding.Le32RoundTrip | pi_sender/src/beconnect_pi/constants.py:53-61 | the four little-endian bytes of a 32-bit value read back as that value |
| Encoding.Le32OfLow | app/src/main/java/com/beconnect/ble/BleAdvertiser.kt:36-40 | the little-endian bytes of a value depend only on its low 32 bits |
| Encoding.Be32OfLow | app/src/main/java/com/beconnect/ble/BleAdvertiser.kt:41 | the big-endian bytes of a value depend only on its low 32 bits |
| Encoding.Be32RoundTrip | pi_sender/src/beconnect_pi/constants.py:62 | big-endian bytes read back as the signed low 32 bits, and as the value itself inside the signed 32-bit range |
| Constants.SeverityToByte | pi_sender/src/beconnect_pi/constants.py:25-32 | 4, 3, 2, 1 exactly for Extreme, Severe, Moderate, Minor; 0 for every other string; never above 4 |
| Constants.JavaStringHashcode | pi_sender/src/beconnect_pi/constants.py:35-41 | the loop returns the JVM string hash of the code points, signed 32-bit; its unsigned view is the hash polynomial mod 2^32 |
| Constants.MetadataPayload | pi_sender/src/beconnect_pi/constants.py:44-63 | raises exactly when `fetched_at` is outside the signed 32-bit range; otherwise 9 bytes: the severity byte, the unsigned hash little-endian, and `fetched_at` big-endian |
| Constants.SeverityMappingTest | pi_sender/tests/test_metadata.py:6-11 | the five table entries map to 4, 3, 2, 1, 0 |
| GattClient.RequestBytes | app/src/main/java/com/beconnect/ble/GattClient.kt:101 | the request of round i is the high byte and the low byte of i |
| GattClient.RequestDecodes | app/src/main/java/com/beconnect/ble/GattClient.kt:101 | for i below 65536 the two request bytes read back big-endian as i |
| GattClient.Step | app/src/main/java/com/beconnect/ble/GattClient.kt:43-50 | one pass that ends the loop ends it after round index + 1 |
| GattClient.NullReadAborts | app/src/main/java/com/beconnect/ble/GattClient.kt:44 | a read that yields no value aborts the download in that round with the null-read error, whatever was stored before |
| GattClient.ShortFrameAborts | app/src/main/java/com/beconnect/ble/GattClient.kt:45-47 | a frame shorter than its 4-byte header aborts the download in that round with the short-frame error |
| GattClient.RunRounds | app/src/main/java/com/beconnect/ble/GattClient.kt:42-51 | the loop never ends before the round it starts from |
| GattClient.Ordered | app/src/main/java/com/beconnect/ble/GattClient.kt:53 | succeeds exactly when every index below the total is stored, returning those chunks in index order; otherwise fails on the first absent index |
| GattClient.Client.constructor | app/src/main/java/com/beconnect/ble/GattClient.kt:25-28 | a new client has no connection and has done nothing |
| GattClient.Client.Connect | app/src/main/java/com/beconnect/ble/GattClient.kt:58-93 | `gatt` is set and the connect is logged; the result says whether the link came up |
| GattClient.Client.RequireChar | app/src/main/java/com/beconnect/ble/GattClient.kt:109-111 | a characteristic is found exactly when connected and the service offers it |
| GattClient.Client.RequestChunk | app/src/main/java/com/beconnect/ble/GattClient.kt:95-107 | writes the request of round i, waits for its acknowledgement, then reads; returns the peer's answer to round i |
| GattClient.Client.Disconnect | app/src/main/java/com/beconnect/ble/GattClient.kt:113-116 | leaves `gatt` null, closing the link only if one was open |
| GattClient.Client.Round | app/src/main/java/com/beconnect/ble/GattClient.kt:43-50 | one pass of the loop body logs that round's events and returns `Step` |
| GattClient.Client.Rounds | app/src/main/java/com/beconnect/ble/GattClient.kt:38-51 | the imperative loop ends as `RunRounds` from an empty map at round 0, and logs exactly the rounds it ran |
| GattClient.Client.Transfer | app/src/main/java/com/beconnect/ble/GattClient.kt:38-54 | the loop and the reassembly return the specified download and log the rounds |
| GattClient.Client.Fetch | app/src/main/java/com/beconnect/ble/GattClient.kt:32-54 | the body of `runCatching` returns the specified download and logs the connect and the rounds |
| GattClient.Client.DownloadAlert | app/src/main/java/com/beconnect/ble/GattClient.kt:30-56 | returns the specified download, logs the whole download trace, and leaves the client disconnected |
| GattClient.AckIgnored | app/src/main/java/com/beconnect/ble/GattClient.kt:100-106 | the write acknowledgement's flag changes neither the result nor the number of rounds |
| GattClient.RoundsIgnoreAck | app/src/main/java/com/beconnect/ble/GattClient.kt:100-106 | two peers with the same answers run the loop to the same end |
| GattClient.ExitTest | app/src/main/java/com/beconnect/ble/GattClient.kt:50 | the loop exits only with as many distinct stored indices as the last decoded total, after at least one and at most fuel rounds |
| GattClient.RoundStores | app/src/main/java/com/beconnect/ble/GattClient.kt:45-50 | a frame with a full header stores its payload under its decoded index, overwriting, then exits or goes on to the next round |
| GattClient.HonestStep | app/src/main/java/com/beconnect/ble/GattClient.kt:43-50 | a round whose answer carries chunk k stores chunk k under k |
| GattClient.HonestRounds | app/src/main/java/com/beconnect/ble/GattClient.kt:42-51 | from chunk k on, a peer serving every chunk makes the loop exit after exactly N rounds holding all N chunks |
| GattClient.OrderedReceived | app/src/main/java/com/beconnect/ble/GattClient.kt:53 | all chunks received, read in index order, are the chunks |
| GattClient.HonestDownload | app/src/main/java/com/beconnect/ble/GattClient.kt:30-56 | against a peer that connects, offers both characteristics and answers request i with `encodeChunk(i, N, parts[i])`, 1 <= N < 65536, the download returns the joined parts after exactly N rounds |
| GattClient.ZeroTotalStalls | app/src/main/java/com/beconnect/ble/GattClient.kt:42-51 | against a peer whose frames all announce 0 chunks, the loop never exits: it runs as long as the fuel lasts |
| GattClient.RoundsTraceAt | app/src/main/java/com/beconnect/ble/GattClient.kt:43 | the rounds' events lie three to a round, round r at positions 3r..3r+2 |
| GattClient.DownloadTraceShape | app/src/main/java/com/beconnect/ble/GattClient.kt:30-56 | every download connects first and closes exactly once, at the end, whatever the outcome; round r writes `[r shr 8, r]`, waits for the acknowledgement, then reads |
| GattClient.NoRequestWithoutCharacteristics | app/src/main/java/com/beconnect/ble/GattClient.kt:35-36 | without the connection or either characteristic no chunk is requested, the download fails, and the link is still closed |
| GattServer.ServedFrameDecodes | app/src/main/java/com/beconnect/ble/GattServer.kt:72-76 | the served frame carries the requested index and the chunk count; its payload is the chunk in range and empty (a 4-byte frame) past the end |
| GattServer.Server.constructor | app/src/main/java/com/beconnect/ble/GattServer.kt:23-25 | no server, no chunks, requested index 0 |
| GattServer.Server.Start | app/src/main/java/com/beconnect/ble/GattServer.kt:27-30 | the chunk table is the 17-byte slices of the serialised alert and joins back to it; the server is open; the requested index is kept |
| GattServer.Server.OnCharacteristicWriteRequest | app/src/main/java/com/beconnect/ble/GattServer.kt:53-66 | a control write of 2 or more bytes sets the index to their big-endian value; any other write changes nothing; a write asking for a response is acknowledged whatever it held |
| GattServer.Server.OnCharacteristicReadRequest | app/src/main/java/com/beconnect/ble/GattServer.kt:68-78 | a read of the alert characteristic gets the frame for the requested index, never fails, and changes nothing |
| GattServer.Server.Stop | app/src/main/java/com/beconnect/ble/GattServer.kt:88-91 | the server is null afterwards; the chunk table and index stay |
| GattServer.RequestServesChunk | app/src/main/java/com/beconnect/ble/GattServer.kt:59-76 | writing `[i shr 8, i]` for an index in range selects i, and the next read serves `encodeChunk(i, N, chunks[i])` |
| BleServer.FramesOf | pi_sender/src/beconnect_pi/ble_server.py:37 | the default-size frame table has ceil(length / 17) frames |
| BleServer.RuntimeState.constructor | pi_sender/src/beconnect_pi/ble_server.py:29-33 | the state holds the alert, its frames and index 0 |
| BleServer.RuntimeState.UpdateAlert | pi_sender/src/beconnect_pi/ble_server.py:35-38 | replaces the alert, rebuilds its frames and resets the index to 0 |
| BleServer.RuntimeState.CurrentFrame | pi_sender/src/beconnect_pi/ble_server.py:40-44 | the frame at the index when it is in range, empty bytes otherwise |
| BleServer.RuntimeState.CurrentFrameDecodes | pi_sender/src/beconnect_pi/ble_server.py:40-44 | in range, the served frame carries the index, the frame count and that slice of the alert; out of range every decoder rejects it |
| BleServer.FrameFields | pi_sender/src/beconnect_pi/ble_server.py:37 | frame i of the table decodes to i, the frame count and slice i |
| BleServer.AlertCharacteristic.constructor | pi_sender/src/beconnect_pi/ble_server.py:102-106 | the characteristic shares the given state |
| BleServer.AlertCharacteristic.ReadValue | pi_sender/src/beconnect_pi/ble_server.py:120-129 | returns `current_frame()`, which is empty or at least 4 bytes, and changes no state |
| BleServer.ControlCharacteristic.constructor | pi_sender/src/beconnect_pi/ble_server.py:133-137 | the characteristic shares the given state |
| BleServer.ControlCharacteristic.WriteValue | pi_sender/src/beconnect_pi/ble_server.py:151-158 | under 2 bytes leaves the index; otherwise sets it to the big-endian value of the first two; the alert and frames never change |
| BleServer.Advertisement.constructor | pi_sender/src/beconnect_pi/ble_server.py:48-51 | the advertisement shares the given state |
| BleServer.Advertisement.ManufacturerData | pi_sender/src/beconnect_pi/ble_server.py:73-80 | one entry under the manufacturer id holding `metadata_payload` of the current alert; raises exactly when that does |
| BleServer.BluezServer.constructor | pi_sender/src/beconnect_pi/ble_server.py:205-207 | the state holds the initial alert, its frames and index 0, shared by every exported object |
| BleServer.BluezServer.UpdateAlert | pi_sender/src/beconnect_pi/ble_server.py:283-284 | the shared state gets the new alert, its frames and index 0 |
| BleScanner.SeverityOf | app/src/main/java/com/beconnect/ble/BleScanner.kt:43-44 | byte 0 of the manufacturer data as a signed byte; 0 when the data is absent or empty |
| BleScanner.SeverityCodesSurvive | app/src/main/java/com/beconnect/ble/BleScanner.kt:44-45 | severity codes 0..4 read back unchanged |
| BleScanner.Scanner.constructor | app/src/main/java/com/beconnect/ble/BleScanner.kt:27-28 | no callback and an empty registry |
| BleScanner.Scanner.Snapshot | app/src/main/java/com/beconnect/ble/BleScanner.kt:46 | the records of the registry, in insertion order |
| BleScanner.Scanner.Start | app/src/main/java/com/beconnect/ble/BleScanner.kt:32-56 | installs a callback with no already-started guard, keeping the registry |
| BleScanner.Scanner.Stop | app/src/main/java/com/beconnect/ble/BleScanner.kt:58-61 | clears the callback and keeps the registry for the next start |
| BleScanner.Scanner.OnScanResult | app/src/main/java/com/beconnect/ble/BleScanner.kt:41-47 | upserts the sighting under its address, appending only new addresses, and hands out the snapshot |
| BleScanner.SnapshotDistinct | app/src/main/java/com/beconnect/ble/BleScanner.kt:45-46 | the snapshot lists every registered address exactly once |
| BleScanner.SightingWins | app/src/main/java/com/beconnect/ble/BleScanner.kt:45 | the record for a sighted address carries that sighting; every other address keeps its record |
| BleAdvertiser.SeverityByte | app/src/main/java/com/beconnect/ble/BleAdvertiser.kt:74-76 | agrees with the Pi's `severity_to_byte` and never exceeds 4 |
| BleAdvertiser.Meta | app/src/main/java/com/beconnect/ble/BleAdvertiser.kt:34-42 | 9 bytes: the severity byte, the UTF-16 string hash little-endian, and the low 32 bits of `fetchedAt` big-endian |
| BleAdvertiser.BuildMeta | app/src/main/java/com/beconnect/ble/BleAdvertiser.kt:34-42 | the sequence of `put` calls fills a fresh 9-byte buffer with `Meta` |
| BleAdvertiser.Advertiser.constructor | app/src/main/java/com/beconnect/ble/BleAdvertiser.kt:22-26 | no callback and nothing on air |
| BleAdvertiser.Advertiser.Start | app/src/main/java/com/beconnect/ble/BleAdvertiser.kt:28-67 | unsupported hardware gets one error and nothing else. Otherwise a new callback replaces the held one, and the metadata goes on air under it next to any set still running, or the unavailable error is reported |
| BleAdvertiser.Advertiser.Stop | app/src/main/java/com/beconnect/ble/BleAdvertiser.kt:69-72 | ends only the set started under the held callback, when there is one and the advertiser is available; the callback is cleared, so a second stop changes nothing |
| BleAdvertiser.StopSet | app/src/main/java/com/beconnect/ble/BleAdvertiser.kt:70 | `stopAdvertising(c)` ends exactly the sets started under `c` and keeps the rest |
| BleAdvertiser.StopSetLast | app/src/main/java/com/beconnect/ble/BleAdvertiser.kt:56-72 | stopping the callback of the latest set leaves every earlier set running |
| BleAdvertiser.StopSetIncreasing | app/src/main/java/com/beconnect/ble/BleAdvertiser.kt:56-72 | the running sets stay in the order their callbacks were created |
| BleAdvertiser.RestartThenStop | app/src/main/java/com/beconnect/ble/BleAdvertiser.kt:56-72 | after `start(a)`, `start(b)`, `stop()`, `a`'s advertisement is still on air, and no callback is held to stop it |
| BleAdvertiser.MetaMatchesPi | pi_sender/src/beconnect_pi/constants.py:44-63 | for ids inside the Basic Multilingual Plane and `fetchedAt` in the signed 32-bit range, the two gateways advertise the same 9 bytes |
| BleAdvertiser.SurrogateHashDiffers | app/src/main/java/com/beconnect/ble/BleAdvertiser.kt:36 | for the id U+1F600 the Android hash bytes read 1772899 and the Pi's read 128512 |
| BleAdvertiser.FetchedAtWraps | app/src/main/java/com/beconnect/ble/BleAdvertiser.kt:41 | outside the signed 32-bit range the Pi raises, while Android advertises a different value with the same low 32 bits |
| AlertModel.StripEmptyIffBlank | pi_sender/src/beconnect_pi/model.py:28-33 | `not s.strip()` holds exactly when every character is whitespace |
| AlertModel.StripTrimmed | pi_sender/src/beconnect_pi/model.py:28 | a string with no whitespace at either end is its own strip |
| AlertModel.Validate | pi_sender/src/beconnect_pi/model.py:23-37 | passes exactly for valid packets; reports each of the six errors exactly when its check is the first one to fail, in the order severity, headline, instructions, sourceUrl, expires, fetchedAt |
| AlertModel.DecimalValue | pi_sender/src/beconnect_pi/model.py:61 | the decimal digits of n read back as n |
| AlertModel.SignedDigits | pi_sender/src/beconnect_pi/model.py:61 | succeeds exactly for digits with single underscores between them, optionally after one sign; a plain digit string parses as its value |
| AlertModel.GroupedTailChars | pi_sender/src/beconnect_pi/model.py:61 | an accepted literal holds only digits and underscores |
| AlertModel.ParseGrouped | pi_sender/src/beconnect_pi/model.py:61 | `int` of an unsigned grouped literal is the value of its digits with the underscores removed |
| AlertModel.ParseUnderscored | pi_sender/src/beconnect_pi/model.py:61 | `int("1_000")` is 1000 |
| AlertModel.ParseDoubleUnderscore | pi_sender/src/beconnect_pi/model.py:61 | `int("1__000")` raises |
| AlertModel.ParseRejectsSeparator | pi_sender/src/beconnect_pi/model.py:61 | U+001C is whitespace to `str.strip()`, but `int()` does not skip it, so `int("\x1c5")` raises |
| AlertModel.ParseSkipsNoBreakSpace | pi_sender/src/beconnect_pi/model.py:61 | `int()` skips non-ASCII whitespace such as U+00A0: `int("\xa07")` is 7 |
| AlertModel.IntStripTrimmed | pi_sender/src/beconnect_pi/model.py:61 | a string with no `int()` whitespace at either end reaches the digit reader unchanged |
| AlertModel.PyInt | pi_sender/src/beconnect_pi/model.py:61 | `int` keeps integers, turns booleans into 1 and 0, and raises on null |
| AlertModel.ParseDigits | pi_sender/src/beconnect_pi/model.py:61 | `int` of a digit string is its value |
| AlertModel.ParseNegDigits | pi_sender/src/beconnect_pi/model.py:61 | `int` of `-` and a digit string is the negated value |
| AlertModel.IntStrRoundTrip | pi_sender/src/beconnect_pi/model.py:58-65 | `int(str(i)) == i` for every integer with at most 4300 digits; `str` and `int` raise beyond that, and that limit is not modelled |
| AlertModel.RequiredSorted | pi_sender/src/beconnect_pi/model.py:44-56 | the eight required key names in the order listed are strictly sorted |
| AlertModel.Missing | pi_sender/src/beconnect_pi/model.py:54-56 | exactly the required keys absent from the payload, and sorted when the required list is |
| AlertModel.ToDict | pi_sender/src/beconnect_pi/model.py:39-40 | every field has an entry |
| AlertModel.ToDictLookups | pi_sender/src/beconnect_pi/model.py:39-40 | each key holds its own field's value |
| AlertModel.Convert | pi_sender/src/beconnect_pi/model.py:57-66 | the only conversion that can fail is `int` |
| AlertModel.FromDict | pi_sender/src/beconnect_pi/model.py:42-68 | reports missing keys exactly when some key is missing, naming exactly those, sorted; every packet returned is valid |
| AlertModel.FromDictToDict | pi_sender/src/beconnect_pi/model.py:39-68 | `from_dict(to_dict(p))` is p when p is valid, and otherwise raises `validate`'s own error |
| AlertModel.GenerateAlertId | pi_sender/src/beconnect_pi/model.py:90-93 | the first eight characters of the digest |
| AlertModel.BuildAlert | pi_sender/src/beconnect_pi/model.py:96-120 | fails exactly when the assembled packet is invalid; otherwise keeps every argument, uses a non-empty `alert_id` or the generated id, and `fetched_at` or the current time |
| AlertModel.BuildAlertTests | pi_sender/tests/test_model.py:12-35 | severity "Critical" is rejected; a generated id from a 40-character digest has 8 characters |
| Storage.Find | pi_sender/src/beconnect_pi/storage.py:49-53 | `None` exactly when no stored alert has the id; otherwise a stored alert with that id |
| Storage.FindFirst | pi_sender/src/beconnect_pi/storage.py:49-53 | the alert found is the first one with the id |
| Storage.PutMembers | pi_sender/src/beconnect_pi/storage.py:57-58 | `by_id[a.alertId] = a` adds a, keeps every entry with another id, and adds nothing else |
| Storage.PutDistinct | pi_sender/src/beconnect_pi/storage.py:57-58 | after the assignment the ids stay distinct and the entry for a's id is a |
| Storage.ById | pi_sender/src/beconnect_pi/storage.py:57 | the dict has one entry per id stored, each a stored alert |
| Storage.InsertDesc | pi_sender/src/beconnect_pi/storage.py:59 | inserting keeps the same alerts plus the new one |
| Storage.InsertDescSorted | pi_sender/src/beconnect_pi/storage.py:59 | inserting into a newest-first list keeps it newest first |
| Storage.SortDesc | pi_sender/src/beconnect_pi/storage.py:59 | the sort is a permutation |
| Storage.SortDescSorted | pi_sender/src/beconnect_pi/storage.py:59 | the sorted list is newest first |
| Storage.SortDescMembers | pi_sender/src/beconnect_pi/storage.py:59 | the sort keeps the same alerts and ids |
| Storage.SortDescDistinct | pi_sender/src/beconnect_pi/storage.py:59 | the sort keeps ids distinct |
| Storage.UpsertedSpec | pi_sender/src/beconnect_pi/storage.py:55-59 | after an upsert exactly one alert has a's id and it is a; every other id is kept; nothing new appears; the list is newest first |
| Storage.Without | pi_sender/src/beconnect_pi/storage.py:63-65 | removes exactly the alerts with the id; the length is unchanged exactly when there were none, and then the list is unchanged |
| Storage.WithoutAppend | pi_sender/src/beconnect_pi/storage.py:63 | the filter keeps the order of what remains |
| Storage.AlertStore.constructor | pi_sender/src/beconnect_pi/storage.py:24-33 | a fresh store has no alerts and no current alert |
| Storage.AlertStore.GetAlert | pi_sender/src/beconnect_pi/storage.py:49-53 | the scan returns the first alert with the id, or `None` exactly when there is none |
| Storage.AlertStore.UpsertAlert | pi_sender/src/beconnect_pi/storage.py:55-59 | saves the upserted list and leaves the current alert |
| Storage.AlertStore.DeleteAlert | pi_sender/src/beconnect_pi/storage.py:61-67 | true exactly when the id was stored; the saved list loses every alert with the id, and is unchanged when there were none |
| Storage.AlertStore.Publish | pi_sender/src/beconnect_pi/storage.py:69-74 | raises exactly for an unknown id, changing nothing; otherwise the stored alert becomes current and is returned |
| Storage.AlertStore.GetCurrentAlert | pi_sender/src/beconnect_pi/storage.py:76-80 | returns the published alert, or `None` before any publish |
| Cli.Lower | pi_sender/src/beconnect_pi/cli.py:22 | same length; ASCII capitals become lower case, everything else is kept |
| Cli.BoolArg | pi_sender/src/beconnect_pi/cli.py:21-27 | succeeds exactly for a stripped, lower-cased word in one of the two sets, and is true exactly for the true words |
| Cli.WordsDisjoint | pi_sender/src/beconnect_pi/cli.py:23-26 | no word is both true and false |
| Cli.BoolArgPadded | pi_sender/src/beconnect_pi/cli.py:21-24 | " YES " is true |
| Cli.BoolArgMixedCase | pi_sender/src/beconnect_pi/cli.py:25-26 | "Off" is false |
| Cli.BoolArgUnknown | pi_sender/src/beconnect_pi/cli.py:27 | "maybe" is rejected |
| Cli.Edited | pi_sender/src/beconnect_pi/cli.py:68-80 | an edit never changes `alertId` or `fetchedAt` |
| Cli.MergeStep | pi_sender/src/beconnect_pi/cli.py:77-80 | one round of the merge loop on `to_dict(p)` gives the dict of p with that field set, or p's dict when the update is `None` |
| Cli.MergeApplyAll | pi_sender/src/beconnect_pi/cli.py:77-80 | the merge loop over `to_dict(p)` is the dict of p with every update applied in order |
| Cli.EditedIsApplyAll | pi_sender/src/beconnect_pi/cli.py:68-80 | applying the `alert edit` updates in order is the edit stated on the packet |
| Cli.MergeToDict | pi_sender/src/beconnect_pi/cli.py:77-80 | merging the non-`None` updates into `to_dict(p)` gives the dict of the edited packet |
| Cli.MergeIsEdit | pi_sender/src/beconnect_pi/cli.py:77-82 | `from_dict` of the merged dict is the edited packet when valid, and validation's error otherwise |
| Cli.EditAlert | pi_sender/src/beconnect_pi/cli.py:61-85 | 1 with the store untouched for an unknown id; otherwise 0 exactly when the edit is valid, and then the edited packet is upserted |
| Interop.AndroidRound | app/src/main/java/com/beconnect/ble/GattServer.kt:53-78 | a control write then a read against the open Android server answers what `AndroidPeer` says, and is acknowledged |
| Interop.PiRound | pi_sender/src/beconnect_pi/ble_server.py:120-158 | `WriteValue` then `ReadValue` on the Pi server answers what `PiPeer` says |
| Interop.AndroidDownload | app/src/main/java/com/beconnect/ble/GattClient.kt:30-56 | against the Android gateway a non-empty alert of fewer than 65536 chunks downloads intact, in exactly that many rounds |
| Interop.PiAnswers | pi_sender/src/beconnect_pi/ble_server.py:40-44 | the Pi answers request i with its frame i |
| Interop.PiFrameFields | pi_sender/src/beconnect_pi/protocol.py:56-59 | frame i of `build_frames` read by the Pi's decoders gives i, the frame count and slice i |
| Interop.PiFrameCarries | pi_sender/src/beconnect_pi/protocol.py:56-59 | frame i of `build_frames` carries chunk i as the Kotlin client decodes it |
| Interop.PiDownload | app/src/main/java/com/beconnect/ble/GattClient.kt:30-56 | against the Pi gateway the serialised alert downloads intact, in exactly ceil(length / 17) rounds |
| Interop.AndroidEmptyStalls | app/src/main/java/com/beconnect/ble/GattClient.kt:42-51 | against an Android gateway with an empty chunk table the download never finishes: it runs out of fuel after exactly fuel rounds |
| Interop.DegradedReadsDiffer | app/src/main/java/com/beconnect/ble/GattServer.kt:72-76 | past the last chunk Android serves a 4-byte header with the index, the count and no payload; the Pi serves empty bytes |
| Interop.PiPastEndAborts | pi_sender/src/beconnect_pi/ble_server.py:40-44 | a client round asking the Pi past its last frame ends the download with the short-frame error |

## Left out

- Bluetooth plumbing is not part of this model: `connectGatt`, the MTU request, service discovery, `openGattServer`, `sendResponse`, scan and advertise settings, BlueZ and D-Bus registration, and adapter lookup. The results of these calls are inputs instead: the `Peer` of the client, `advertiserAvailable`, and the UUID of each callback.
- Concurrency is not modelled. The coroutine `Channel`/`CompletableDeferred` handshakes and the broadcaster's asyncio loop are replaced by their sequential order, recorded as events.
- The download loop is bounded by `fuel`, so a loop that keeps running shows up as `Stalled` rather than as non-termination. A wait that never returns is a different case, described on the next line.
- GattClient.Client.RequestChunk: the source can wait forever, and the model does not capture it. `onConnectionStateChange` acts on a disconnect only while `connectionReady` is incomplete. A link lost after the connection is ready is therefore ignored. The pending `writeAck.await()` or `readChannel.receive()` then never returns, because the source has no timeout, and `downloadAlert` never reaches its `disconnect()`. The model's `Peer` always acknowledges and always answers, so this hang has no outcome in the model.
- A peer's answers are a function of the round number. A gateway whose answer depends on the bytes written is the case the `Interop` peers build from `Request(i)`. A gateway whose state changes by other means between rounds is not modelled.
- `onStartFailure` is not modelled: the asynchronous advertise-failure callback is a foreign event.
- Log calls are not modelled, and neither is `onBeaconsUpdated` being null: the snapshot is always computed.
- JSON is not part of this model. Gson `toJson`, `serialize_alert`, and the `json` load/save of the store are treated as opaque bytes or as the packets written. Reading the files back is taken to give the saved packets, so `load_alerts`' re-validation is not modelled.
- SHA-1 and the clock become inputs: the hex digest and `now`. `parse_epoch`'s ISO-8601 branch is not modelled (date parsing); the `alert edit` arguments carry `expires` already parsed.
- Process and file management (pid files, `os.kill`, subprocesses, paths) is not part of this model.
- The UI activities, Room persistence, the network fetcher and parser, and the demo alerts are not part of this model. This includes the descending-RSSI sort of the receiver list.
- UUIDs are their canonical strings, compared only for equality.
- Cli.Lower: lower-cases ASCII letters only. Python's `str.lower` also maps non-ASCII letters, but no non-ASCII character lowers into one of the ten accepted words or into whitespace, so `BoolArg` gives the same answers.
- AlertModel.ParseInt: accepts ASCII digits only. Python's `int()` also takes any Unicode decimal digit, such as Arabic-Indic or fullwidth digits; the model rejects those strings. Such strings can reach `from_dict` only through a hand-edited store file. It also omits the default limit of 4300 digits, beyond which `int()` raises `ValueError`; the model reads a literal of any length.
- AlertModel.IntStrRoundTrip: holds in Python only for integers of at most 4300 digits. Beyond that `str()` raises `ValueError`, and the model does not capture that limit.
- AlertModel.Convert: states only that the sole failure is a failed `int`. The converted fields are stated through `FromDictToDict`.
- Protocol.Reassemble: states the length of the join; the content is stated by `Framing.SlicesRoundTrip` and `Protocol.BuildFramesRoundTrip`.
- BleScanner.SeverityOf: Kotlin's `mfr?.getOrElse(0) { 0 }` yields a `Byte`. It is modelled as the signed reading of the octet, which is the value stored in `BeaconInfo`.
- BleAdvertiser.Meta: `fetchedAt.toInt()` keeps the low 32 bits of the `Long`, and the model states it that way. The Pi's `struct.pack(">i")` raises instead, as `FetchedAtWraps` shows.
- Frame index and total fields of 65536 or more wrap to their low 16 bits in both encoders (the Python one only rejects negatives). The download lemmas therefore require fewer than 65536 chunks.
