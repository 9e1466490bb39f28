# Network sniffer core: bounded packet store and simulated sniffer

A Dafny model of the core of a Go service that synthesizes network-packet
records at a fixed cadence and keeps them in a bounded in-memory store for
querying. Three modules follow the three Go files:

- `Models` (`Models.dfy`, internal/models/packet.go): the `Packet`,
  `PacketFilter` and `PacketResponse` records, `NewPacket` with its defaults,
  and the identifier built by `generatePacketID`, with a decoder proving that
  the identifier determines the clock reading it was built from.
- `Storage` (`Storage.dfy`, internal/storage/storage.go): class
  `InMemoryStorage` over a `map<string, Packet>` and a capacity `maxSize`.
  `Store` evicts a packet with the earliest timestamp whenever the map holds
  `maxSize` or more entries, then binds the packet under its ID. `Get` filters
  with `MatchesFilter` and paginates with `Limit`/`Offset`. Go's map iteration
  order is unspecified, so both scans (`RemoveOldestPacket`, `Get`) are loops
  that pick the next key by an arbitrary choice. Their contracts hold for every
  order. They are stated through the relations `RemoveOldestStep` and
  `StoreStep` and through `Collect`, which lists the matches of one iteration
  order.
- `Sniffing` (`Sniffing.dfy`, pkg/sniffing/sniffer.go): class `PacketSniffer`
  with the `isRunning` flag and a `stopClosed` flag for the one-shot stop
  channel. `Start`/`Stop` are specified by the transition functions
  `StartStep`/`StopStep` on a `Lifecycle` value. The background goroutine is
  not a thread here. Its `select` cases are explicit environment events:
  `LoopExit` (context done or stop signal) and `GenerateAndStorePacket` (a
  tick). A ghost counter `loops` tracks how many background loops are alive.
  Each `rand` draw is an input: a `Draws` record of indices for `rand.Intn`
  and booleans for the `rand.Float32() < p` tests.

Time is an integer. `ZeroTime` (0) stands for Go's zero `time.Time`, which
`IsZero` recognises. The three `time.Now()` reads that `NewPacket` makes are
the `ClockReadings` input. The response timestamp of `Get` is the `now`
parameter.

The model follows the code as written, including these behaviours:

- Eviction is triggered by size alone. Re-storing an ID that is already
  present in a full store still evicts a packet (`RestoreShrinksStore`).
- `Total` is the length of the returned page, not the match count.
- Generated sizes are 64..1499. The code draws `rand.Intn(1436) + 64`
  (pkg/sniffing/sniffer.go:134), although its comment on line 133 says
  64-1500 bytes and pkg/sniffing/sniffer_test.go:145 allows up to 1500.
- The stop channel is never recreated. After Start, Stop, Start, the
  restarted loop can exit at once on the closed channel. A second `Stop` can
  then panic on the closed channel. It does so when it runs before a loop exit
  clears the running flag; otherwise it returns nil
  (`RestartThenStopPanics` states the interleaving without a loop exit).
- Nothing is evicted when the oldest packet's ID is `""`, so the capacity can
  then be exceeded (`EmptyOldestIDOverfills`). IDs from `NewPacket` are never
  empty, so `TraceWithinCapacity` covers every run of generated packets.

## Model

| member | source | states |
|---|---|---|
| Models.NewPacket | internal/models/packet.go:49-61 | copies source, destination, protocol, port and size unchanged; the ID is `generatePacketID`'s and non-empty; the timestamp is the clock reading; TTL 64, Flags "SYN", empty Payload |
| Models.GeneratePacketID | internal/models/packet.go:64-66 | every identifier starts with "packet_" and is longer than the prefix, so it is never empty |
| Models.PacketIDShape | internal/models/packet.go:64-66 | for a calendar reading after the epoch the ID is 31 characters: "packet_", 14 digits decoding back to the date-time, "_", 9 digits decoding to UnixNano mod 10^9 |
| Models.PacketIDDeterminesReading | internal/models/packet.go:64-66 | two such IDs are equal only if they were built from the same second and the same sub-second nanoseconds |
| Models.DateTimeRoundTrip | internal/models/packet.go:65 | the "20060102150405" layout is 14 digits and decodes back to year, month, day, hour, minute, second |
| Models.ZeroPadRoundTrip | internal/models/packet.go:65 | "%0wd" of a value below 10^w has exactly w digits and reads back as the value |
| Models.GoRem | internal/models/packet.go:65 | Go's `%`: the remainder of division truncated toward zero (a == b * q + r with q truncated), below the divisor in magnitude, equal to Dafny's for non-negative dividends, non-positive for negative ones |
| Storage.MatchesFilter | internal/storage/storage.go:83-109 | a nil filter accepts every packet; otherwise accepted iff each non-empty protocol/source/destination equals the packet's and the timestamp lies within the bounds that are not zero, both inclusive |
| Storage.ZeroFilterIsNoFilter | internal/storage/storage.go:63 | Go's zero PacketFilter accepts exactly what a nil filter accepts and paginates nothing |
| Storage.ProtocolFilterSelects | internal/storage/storage.go:88-90 | a protocol-only filter yields only packets of that protocol and every stored packet of that protocol |
| Storage.Paginate | internal/storage/storage.go:63-73 | with a filter and Limit > 0 the page is the contiguous slice from Offset of length max(0, min(Limit, M - Offset)), empty when Offset >= M; otherwise the whole list |
| Storage.Collect | internal/storage/storage.go:54-60 | a scan keeps only packets the filter accepts, all of them stored, never more than the keys visited |
| Storage.CollectFromOrder | internal/storage/storage.go:54-60 | every packet a scan appends is the one stored under a key of the iteration order |
| Storage.CollectDistinct | internal/storage/storage.go:54-60 | a scan over distinct keys appends no packet twice |
| Storage.CollectComplete | internal/storage/storage.go:54-60 | a scan appends the packet under every visited key that the filter accepts |
| Storage.ScanYieldsMatchesOnce | internal/storage/storage.go:54-60 | for every iteration order a full scan yields exactly the stored packets the filter accepts, each exactly once |
| Storage.NilFilterYieldsAll | internal/storage/storage.go:54-60 | with a nil filter the scan yields every stored packet once, as many as the map holds |
| Storage.PageLength | internal/storage/storage.go:62-73 | over M matches the page holds max(0, min(Limit, M - Offset)) packets, none when Offset >= M, and all M without pagination |
| Storage.Evict | internal/storage/storage.go:128-130 | the chosen key is deleted and the size drops by one unless it is "", in which case nothing changes; no other entry changes |
| Storage.RemoveOldestDeletesOne | internal/storage/storage.go:112-131 | on a non-empty map whose oldest keys are all non-empty, exactly one key goes, one whose timestamp is <= every other, and every other entry is unchanged |
| Storage.StoreStepBinds | internal/storage/storage.go:45 | after a store the packet's ID is bound to the packet, whatever was evicted; no other key is added |
| Storage.StoreKeepsCapacity | internal/storage/storage.go:41-45 | with maxSize >= 1 and no "" key, a store within capacity stays within capacity, and a non-empty ID keeps "" out |
| Storage.TraceWithinCapacity | internal/storage/storage.go:41-45 | along any run of stores of packets with non-empty IDs into an empty store, the size never exceeds maxSize |
| Storage.FullStoreEvictsOldest | internal/storage/storage.go:41-45 | in a full store with a unique earliest packet, a store removes exactly that packet and adds the new one |
| Storage.CapacityTwoKeepsNewest | internal/storage/storage.go:41-45 | three stores at increasing times into capacity 2 leave exactly the last two packets |
| Storage.RestoreIntoFullStoreEvicts | internal/storage/storage.go:41-45 | re-storing a present ID into a full store leaves maxSize - 1 packets, or maxSize only when the overwritten packet was an oldest one; when it is the unique oldest, the result is the old map with that ID rebound |
| Storage.RestoreShrinksStore | internal/storage/storage.go:41-45 | re-storing the newer of two packets in a full store of two evicts the older and leaves one |
| Storage.EmptyOldestIDOverfills | internal/storage/storage.go:128-130 | when the oldest packet is stored under "", nothing is evicted and a store into capacity 1 leaves two packets |
| Storage.InMemoryStorage.constructor | internal/storage/storage.go:28-33 | an empty map with the given capacity |
| Storage.InMemoryStorage.Store | internal/storage/storage.go:36-47 | returns a nil error; the new map is related to the old one by StoreStep; the ID is bound to the packet; keys stay equal to packet IDs |
| Storage.InMemoryStorage.RemoveOldestPacket | internal/storage/storage.go:112-131 | the loop keeps the first packet seen and any strictly earlier one; the new map is related to the old by RemoveOldestStep |
| Storage.InMemoryStorage.Get | internal/storage/storage.go:50-80 | leaves the store unchanged; for some iteration order the packets are the paginated scan; Total is the page length; the timestamp is the clock reading |
| Sniffing.StartStep | pkg/sniffing/sniffer.go:61-87 | Start always ends running with the stop channel as it was; on a running sniffer nothing changes, on an idle one a new loop is launched |
| Sniffing.StopStep | pkg/sniffing/sniffer.go:90-98 | returns nil unless the sniffer is running with a closed channel, which panics and changes nothing; a nil return leaves it idle; idle is a no-op; otherwise the channel is closed |
| Sniffing.ExitStep | pkg/sniffing/sniffer.go:74-79 | a loop that sees its context done or the closed stop channel clears the flag and ends |
| Sniffing.StartIsIdempotent | pkg/sniffing/sniffer.go:62-64 | starting twice equals starting once, with one new background loop |
| Sniffing.SecondStopIsNoOp | pkg/sniffing/sniffer.go:91-93 | after a successful Stop the sniffer is idle and a second Stop returns nil and changes nothing |
| Sniffing.StopChannelStaysClosed | pkg/sniffing/sniffer.go:44 | once closed, the stop channel stays closed through Start, Stop and loop exit |
| Sniffing.RestartThenStopPanics | pkg/sniffing/sniffer.go:44 | Start, Stop, Start, Stop from a fresh sniffer: the restarted loop can exit at once on the stop signal, and the second Stop panics leaving the flag set |
| Sniffing.PacketSniffer.constructor | pkg/sniffing/sniffer.go:40-58 | not running, stop channel open, no loop, the fixed IP/port/protocol pools |
| Sniffing.PacketSniffer.Start | pkg/sniffing/sniffer.go:61-87 | returns nil; the new state is StartStep of the old |
| Sniffing.PacketSniffer.Stop | pkg/sniffing/sniffer.go:90-98 | the outcome and new state are StopStep of the old state |
| Sniffing.PacketSniffer.LoopExit | pkg/sniffing/sniffer.go:72-79 | the environment event ending a loop; the stop-signal case needs a closed channel; the new state is ExitStep of the old |
| Sniffing.PacketSniffer.IsRunning | pkg/sniffing/sniffer.go:101-103 | returns the running flag and changes nothing |
| Sniffing.PacketSniffer.GenerateRandomPacket | pkg/sniffing/sniffer.go:117-161 | source and destination from the IP pool and different, the destination the first draw that differs; port from the port pool; protocol one of four; size 64..1499; TTL 64 or 32..95; Flags "SYN" or one of six; a request-line payload iff HTTP/HTTPS, else empty |
| Sniffing.PacketSniffer.PickDestination | pkg/sniffing/sniffer.go:120-125 | the destination is from the IP pool, differs from the source, and is the first draw that differs |
| Sniffing.PacketSniffer.GenerateAndStorePacket | pkg/sniffing/sniffer.go:106-114 | the generated packet is stored per StoreStep; a store error is dropped; the sniffer's flags are unchanged |
| Sniffing.PacketSniffer.SynthesizedIsValidRecord | internal/models/packet.go:10-15 | with the constructor's pools, every synthesized packet meets the Packet validation tags (ID and addresses present, protocol in the closed set, port 1..65535, size >= 1) |

## Left out

- Locking (`sync.RWMutex`) is left out; each storage method is atomic. The unsynchronized `isRunning` flag shared with the goroutine is a data race, which is concurrency and out of scope.
- The goroutine, `time.Ticker` and `select` are left out. Only their effects remain: the `LoopExit` event and one tick, `GenerateAndStorePacket`. The tick interval is stored and never used.
- The distributions of `math/rand` are left out. Every draw is an input, and the 0.3 and 0.2 probabilities are booleans.
- Sniffing.PacketSniffer.PickDestination: the re-draw loop only ends with probability 1. The model requires that the draws include one destination that differs from the source, and so does `GenerateRandomPacket`.
- Clocks are left out. `time.Now()` becomes inputs (`ClockReadings`, and `now` for `Get`). The local time zone and calendar validity are not modelled. Only readings with a four-digit year and a non-negative UnixNano are covered by `PacketIDShape`.
- Storage.InMemoryStorage.Get: requires Offset >= 0 whenever pagination applies. A negative Offset would make the Go slice expression panic, and the HTTP handler only passes Limit > 0 and Offset >= 0. The 64-bit overflow of Offset + Limit is not modelled.
- The sniffer's `Storage` interface is modelled only by `InMemoryStorage`, whose `Store` always returns nil. Other implementations, such as the test mock, are not part of this model.
- `Packet` aliasing is left out. Go stores pointers, and a caller that mutated a stored packet would change the store. The model stores values.
- The `ip` format validation and the `Timestamp` required tag of `Packet` are not modelled.
- `Stats`, point lookup, delete and clear are left out. The router names these handlers, but the code has no implementation, and `models.Stats` is never computed.
- The HTTP layer, the service facade, configuration loading and process wiring are left out. They only parse requests, forward calls or read the environment.
