# Graphus verification

A Dafny model of the parts of the Graphus database where a mistake costs data, correctness or
access: the buffer pool, the Bolt wire codec, the handshake, and the authorisation core. The model
follows the code: the same branches, the same constants, the same order of checks.

Where the code updates things in place the model is a class (`Packer`, `Unpacker`,
`MapAccumulator`, `Dechunker`, `BufferPool`, `RateLimiter`, `Catalog`) whose methods are proved
against functions on values; the properties are then proved of those functions. The concurrent
permit limiter is a state machine over its atomic steps.

| part | files |
|---|---|
| bytes, values, results | `Bytes`, `Wrappers`, `Utf8`, `Values` |
| PackStream encoder and decoder, as functions | `Encoder`, `Decoder`, `Entries`, `Temporals` |
| what the codec guarantees | `ItemRoundTrip`, `ValueRoundTrip`, `Canonicalisation` |
| the codec as it runs | `Packer`, `Unpacker`, `MapAccumulator` |
| result cells | `Cells`, `CellRoundTrip`, `CellCanonicalisation`, `CellCursors` |
| framing | `Framing`, `Dechunker` |
| messages | `Messages`, `MessageRoundTrip`, `Responses`, `MessageCursors`, `Conversation` |
| version negotiation | `Handshake` |
| buffer pool | `Page`, `Clock`, `PoolState`, `Pool`, `PoolRuns` |
| limits | `RateLimiter`, `VerifyLimiter` |
| authorisation | `Rbac`, `CatalogState`, `Catalog` |

The main results, each for all inputs or all runs:

- the buffer pool refines a flat array of page contents and a set of handles under arbitrary device
  and log failures: what a handle shows is what was last written through a handle of its page. Every
  image the device was ever handed was covered by the log (`PoolRuns.Run`,
  `PoolRuns.SeenIsLastWritten`, `PoolRuns.SeenLsnNeverDescends`);
- decoding undoes encoding exactly on a stated domain, and any accepted input is canonicalised by
  one decode (`Canonicalisation.RoundTripExactly`, `Canonicalisation.CanonicalisedOnce`);
- frames do not depend on how the bytes were delivered (`Framing.DeliveryIndependence`,
  `Framing.ParseIsGrouping`), and requests survive encoding, chunking, delivery and decoding
  (`MessageRoundTrip.EndToEnd`, `Conversations.Converse`);
- result cells are re-encoded byte for byte (`CellRoundTrip.ReencodingIsByteStable`);
- the token bucket conserves tokens on both sides (`RateLimiters.Conservation`), and the permit
  counter is exact under every interleaving (`VerifyLimiters.CounterIsExact`);
- the catalog keeps referential integrity, so renaming a role changes no decision
  (`CatalogState.EveryRunKeepsIntegrity`, `CatalogState.RenameRoleKeepsDecisions`).

One property that a reader might expect is false: being authorised for a resource does not extend
to the resources it covers, because a deny may sit on the narrower one.
`CatalogState.NarrowerResourceCanBeDenied` shows it on a concrete run, and
`CatalogState.NarrowerResourceUnlessDenied` gives the exact condition.

## Conventions

- Integers are Dafny's, restricted to subset types of the code's widths; saturation and wrap-around
  are written out. Doubles are 64-bit patterns. Strings are byte strings with a UTF-8 predicate.
- What comes from outside is a parameter: the zone rules and the integer-to-double conversion
  (`Values.Host`), the CRC (`Pages.Crc`), the clock readings, the schedule of atomic steps. Of the
  zone rules `Values.ValidHost` assumes that a canonical id is a non-empty UTF-8 string that
  resolves to itself and is as long as the id looked up, which differs from it in letter case only.
- Pin counts wrap at 32 bits, as they do in a release build, which checks no overflow.
- The device and the log are classes that may fail at any call. For the proofs the device records
  every image it is handed, with the log's durable length at that moment. A failed page write may leave any
  page image at its target and changes no other page; a successful harden raises the durable length
  above the LSN asked for.

## Model

| member | source | states |
|---|---|---|
| PoolRuns.Run | crates/graphus-bufpool/src/pool.rs:190-349 | Over every sequence of fetch, new page, read, write, LSN stamp, unpin, flush and flush-all, with device and log failing at will: whatever a fetch or a read through a handle shows is what was last written to that page through a handle of that page (or created, or found on the device at the start); each write and stamp lands on the page its handle was pinned for; a failed call changes nothing; a fetch of a pinned page never fails; "full" exactly when every frame is pinned; a successful flush-all leaves the device equal to the store; every image the device was handed was covered by the log; no LSN descends exactly when no write lowers one |
| PoolRuns.Perform | crates/graphus-bufpool/src/pool.rs:163-298 | One call, successful or not, is one such step |
| PoolRuns.Reckoning | crates/graphus-bufpool/src/pool.rs:190-349 | Along any run the handles held, and the content of every page, are what the client can work out from its own calls and their answers |
| PoolRuns.SeenIsLastWritten | crates/graphus-bufpool/src/pool.rs:163-265 | What a fetch, or a read through a handle, shows is the content last written through a handle of that page |
| PoolRuns.SeenLsnNeverDescends | crates/graphus-bufpool/src/page.rs:96-100 | When no write lowers an LSN, the LSN seen for a page never descends, whatever evictions and reloads lie between |
| PoolRuns.LsnsAscend | crates/graphus-bufpool/src/page.rs:96-100 | The same for the flat array at any two moments of a run |
| Pool.BufferPool.constructor | crates/graphus-bufpool/src/pool.rs:144-155 | A new pool stands for the device's own contents and has sent nothing home |
| Pool.BufferPool.Fetch | crates/graphus-bufpool/src/pool.rs:248-265 | A resident page is pinned once more and cannot fail; a success shows the stored content; other pinned frames are untouched; the 32-bit pin count wraps; "full of pinned pages" exactly when the page is not resident and every frame is pinned; a checksum failure only for a page the pool never wrote |
| Pool.BufferPool.Load | crates/graphus-bufpool/src/pool.rs:253-264 | The miss path of a fetch, with the same guarantees |
| Pool.BufferPool.Install | crates/graphus-bufpool/src/pool.rs:300-308 | A page as the device has it enters an empty frame, pinned once, and the invariants hold |
| Pool.BufferPool.NewPage | crates/graphus-bufpool/src/pool.rs:269-278 | The new page is the next of the device, zero but for id and checksum, pinned and dirty; a failure leaves the store as it was |
| Pool.BufferPool.InstallNew | crates/graphus-bufpool/src/pool.rs:271-277 | Growing the device and filling the frame keeps every invariant, also when the extension fails |
| Pool.BufferPool.PageMut | crates/graphus-bufpool/src/pool.rs:190-198 | A write through a frame that holds a page, pinned or not, is a write to the store and marks the frame dirty, nothing else |
| Pool.BufferPool.ReadFrame | crates/graphus-bufpool/src/pool.rs:163-171 | A frame that holds a page, pinned or not, shows the stored content, LSN included |
| Pool.BufferPool.StampLsn | crates/graphus-bufpool/src/page.rs:96-100 | Stamping through the monotone setter changes only the LSN of the stored page and never spoils the ascending-LSN claim |
| Pool.BufferPool.Unpin | crates/graphus-bufpool/src/pool.rs:236-244 | Only the pin count changes, stopping at zero |
| Pool.BufferPool.Flush | crates/graphus-bufpool/src/pool.rs:281-283 | On success the frame is clean and the device has its page as stored; on failure it is still dirty; the store and the handles are unchanged either way |
| Pool.BufferPool.FlushAll | crates/graphus-bufpool/src/pool.rs:286-298 | On success no frame is dirty and the device alone holds the whole store |
| Pool.BufferPool.WriteBack | crates/graphus-bufpool/src/pool.rs:310-323 | The image goes home only after the log covers its LSN; a refused harden leaves the device alone; a failed write, even one that spoils its page, loses nothing |
| Pool.BufferPool.EvictVictim | crates/graphus-bufpool/src/pool.rs:325-349 | An empty frame if there is one, else the frame the clock sweep chooses, written back; pinned frames untouched; fails with "full" exactly when the sweep gives up |
| Pool.BufferPool.SweepClock | crates/graphus-bufpool/src/pool.rs:329-344 | The loop over the frames computes the specified sweep, hand and reference bits included |
| Pool.BufferPool.FindEmpty | crates/graphus-bufpool/src/pool.rs:326-328 | The first frame without a page |
| Pool.BufferPool.TakeVictim | crates/graphus-bufpool/src/pool.rs:339-343 | The victim leaves the table, its content safe on the device |
| Clock.NearestClearIsChosen | crates/graphus-bufpool/src/pool.rs:325-344 | The first unpinned frame with a clear bit, in clock order, is the victim, within one round |
| Clock.NearestFreeIsChosen | crates/graphus-bufpool/src/pool.rs:325-344 | When every unpinned frame has its bit set, the first unpinned frame is the victim, in the second round |
| Clock.GivesUpIffAllPinned | crates/graphus-bufpool/src/pool.rs:345-348 | The sweep gives up if and only if every frame is pinned, and then it changed no frame |
| Clock.SweepTouchesOnlyFreeBits | crates/graphus-bufpool/src/pool.rs:333-338 | A sweep changes only reference bits of unpinned frames |
| Clock.WalkPast | crates/graphus-bufpool/src/pool.rs:330-338 | The hand passes any stretch without a candidate, clearing the bits of its unpinned frames |
| PoolState.AllPinnedIffFull | crates/graphus-bufpool/src/pool.rs:325-349 | No victim exists exactly when every frame is occupied and pinned |
| PoolState.SpoiltHome | crates/graphus-bufpool/src/pool.rs:320-321 | A device write that fails and spoils its target keeps the refinement |
| PoolState.WrittenHome | crates/graphus-bufpool/src/pool.rs:320-322 | A completed device write lets the frame be marked clean |
| PoolState.Loaded | crates/graphus-bufpool/src/pool.rs:254-264 | Installing a verified page image keeps the refinement |
| PoolState.GivenUp | crates/graphus-bufpool/src/pool.rs:339-343 | Emptying a clean, unpinned frame keeps the refinement |
| PoolState.Created | crates/graphus-bufpool/src/pool.rs:269-278 | A page added to the device and the pool keeps the refinement |
| PoolState.Rewritten | crates/graphus-bufpool/src/pool.rs:190-198 | A client write keeps the refinement against the updated store |
| PoolState.SentHome | crates/graphus-bufpool/src/pool.rs:318-320 | An image hardened before it is sent keeps WAL-before-data and ascending LSNs over everything the device was handed |
| PoolState.AllClean | crates/graphus-bufpool/src/pool.rs:286-298 | With no dirty frame the device equals the store |
| PoolState.Unverified | crates/graphus-bufpool/src/pool.rs:257-262 | A page the pool has written and does not hold never fails its checksum |
| Pages.ChecksumWritten | crates/graphus-bufpool/src/page.rs:32-52 | Writing the checksum makes the page verify and changes neither body nor LSN |
| Pages.FieldWritten | crates/graphus-bufpool/src/page.rs:21-30 | A header field is read back as written and no other byte moves |
| Pages.StampAdvances | crates/graphus-bufpool/src/page.rs:96-100 | The stamp keeps the higher of the two LSN claims |
| Pages.StampIsInTheBody | crates/graphus-bufpool/src/page.rs:96-100 | Stamping a page stamps its body and nothing else |
| Pages.WriteField | crates/graphus-bufpool/src/page.rs:124-138 | The in-place store writes exactly the field |
| Pages.WriteChecksum | crates/graphus-bufpool/src/page.rs:37-41 | In place, the checksum field becomes the CRC of the rest of the page |
| Pages.SetPageLsn | crates/graphus-bufpool/src/page.rs:96-100 | In place, the LSN only ever advances |
| Pages.ResetPageLsn | crates/graphus-bufpool/src/page.rs:124-126 | In place, the LSN is replaced in either direction |
| Canonicalisation.RoundTripExactly | crates/graphus-bolt/src/packstream.rs:865-916 | A value the encoder does not refuse comes back unchanged with the bytes behind it untouched if and only if it is in the domain: distinct keys, valid UTF-8, in-range temporals, depth at most 64, at most 4,194,304 elements |
| Canonicalisation.CanonicalisedOnce | crates/graphus-bolt/src/packstream.rs:1284-1544 | Any accepted input of at most i32::MAX bytes, however it is spelled, is encodable and decodes to itself from its own encoding |
| Canonicalisation.DecodedSound | crates/graphus-bolt/src/packstream.rs:1284-1363 | Every accepted value is canonical, nests at most 64 deep counting the open levels, and has no more elements than budget spent and fewer than bytes consumed |
| Canonicalisation.ItemsSound | crates/graphus-bolt/src/packstream.rs:1312-1325 | The same for list items |
| Canonicalisation.PairsSound | crates/graphus-bolt/src/packstream.rs:1326-1341 | The same for map entries |
| Canonicalisation.OverlongIffFits | crates/graphus-bolt/src/packstream.rs:871-916 | For every value, however deep, the packer is left unpoisoned exactly when every length it wrote has a header; a value within the depth cap is written whole |
| Canonicalisation.ClippedBytes | crates/graphus-bolt/src/packstream.rs:871-878 | A value and what the depth cap leaves of it have the same encoding |
| ValueRoundTrip.RoundTrip | crates/graphus-bolt/src/packstream.rs:871-916 | Within the budgets, decoding an encoding followed by any bytes gives the value, the bytes, and the budget less its elements |
| ValueRoundTrip.ItemsRoundTrip | crates/graphus-bolt/src/packstream.rs:886-892 | The same for a list body |
| ValueRoundTrip.EntriesRoundTrip | crates/graphus-bolt/src/packstream.rs:893-900 | The same for a map body, duplicates included before deduplication |
| ValueRoundTrip.TemporalRoundTrip | crates/graphus-bolt/src/packstream.rs:1781-1867 | Every in-range temporal value survives its structure |
| ValueRoundTrip.ZonedRoundTrip | crates/graphus-bolt/src/packstream.rs:1812-1857 | A zoned date-time survives the trip through UTC and back, by offset or by zone id |
| ValueRoundTrip.PointRoundTrip | crates/graphus-bolt/src/packstream.rs:1177-1195 | A spatial point survives with its SRID and all coordinates |
| ItemRoundTrip.IntRoundTrip | crates/graphus-bolt/src/packstream.rs:347-365 | Every i64 is read back from what was written |
| ItemRoundTrip.IntBytesShortest | crates/graphus-bolt/src/packstream.rs:700-724 | No byte string the reader accepts as an integer is shorter than the encoder's for it |
| ItemRoundTrip.HeaderRoundTrip | crates/graphus-bolt/src/packstream.rs:445-466 | Every length up to i32::MAX is read back from its header, in each of the three families |
| ItemRoundTrip.HeaderShortest | crates/graphus-bolt/src/packstream.rs:739-795 | No accepted header for a length is shorter than the encoder's |
| ItemRoundTrip.StringRoundTrip | crates/graphus-bolt/src/packstream.rs:374-384 | A UTF-8 string is read back, bytes behind it untouched |
| ItemRoundTrip.BinaryRoundTrip | crates/graphus-bolt/src/packstream.rs:387-408 | A byte string is read back, bytes behind it untouched |
| ItemRoundTrip.FloatRoundTrip | crates/graphus-bolt/src/packstream.rs:368-371 | Every 64-bit pattern is read back, NaNs included |
| ItemRoundTrip.StructHeaderRoundTrip | crates/graphus-bolt/src/packstream.rs:426-442 | Tag and field count are read back |
| Temporals.LocalDateTimeInstant | crates/graphus-bolt/src/packstream.rs:1426-1439 | Accepted exactly when the whole seconds fit 64 bits; then the instant is the one on the wire, nanos in range |
| Temporals.DateTimeInstant | crates/graphus-bolt/src/packstream.rs:1440-1457 | Accepted exactly when UTC and local seconds fit and the offset is legal; then local time less offset is the instant on the wire |
| Temporals.DateTimeZoneIdInstant | crates/graphus-bolt/src/packstream.rs:1458-1494 | The same with the offset the zone's rules give at that very instant |
| Temporals.DurationLength | crates/graphus-bolt/src/packstream.rs:1495-1518 | Months and days verbatim, seconds and nanos the same length as on the wire; overflow refused |
| Temporals.TimeOfDay | crates/graphus-bolt/src/packstream.rs:1386-1425 | A zoned time is taken modulo one day and its offset checked; a local time outside the day is refused |
| Temporals.CarryIsWholeSeconds | crates/graphus-bolt/src/packstream.rs:1950-1985 | Splitting raw nanoseconds carries whole seconds towards the past and keeps the total |
| Temporals.EncoderNeverSaturates | crates/graphus-bolt/src/packstream.rs:1812-1857 | For every zoned value a decode can produce, local seconds less offset needs no saturation |
| Entries.DedupMeaning | crates/graphus-bolt/src/packstream.rs:1240-1270 | The fold keeps the distinct keys in first-seen order, each with its last-seen value |
| Entries.InsertMeaning | crates/graphus-bolt/src/packstream.rs:1240-1270 | One insert extends that meaning by one pair |
| Entries.DedupDistinct | crates/graphus-bolt/src/packstream.rs:1240-1270 | Entries with distinct keys are left alone |
| MapAccumulators.MapAccumulator.Insert | crates/graphus-bolt/src/packstream.rs:1240-1270 | By scan or by hash, across the switch at 32 entries, an insert is the plain one and the index stays exact |
| MapAccumulators.MapAccumulator.Scan | crates/graphus-bolt/src/packstream.rs:1254-1258 | The scan finds the entry with the key, or none |
| MapAccumulators.MapAccumulator.BuildIndex | crates/graphus-bolt/src/packstream.rs:1259-1268 | The built index sends exactly the keys present to their positions |
| MapAccumulators.Accumulate | crates/graphus-bolt/src/packstream.rs:1221-1275 | Any pairs, accumulated, are the distinct keys in first-seen order with their last values |
| Packers.Packer.Reset | crates/graphus-bolt/src/packstream.rs:325-328 | Buffer and poison are cleared |
| Packers.Packer.WriteInt | crates/graphus-bolt/src/packstream.rs:347-365 | Appends the specified integer bytes |
| Packers.Packer.WriteFloat | crates/graphus-bolt/src/packstream.rs:368-371 | Appends marker and bit pattern |
| Packers.Packer.WriteString | crates/graphus-bolt/src/packstream.rs:374-384 | Appends header and text; an over-long length poisons the packer |
| Packers.Packer.WriteBytes | crates/graphus-bolt/src/packstream.rs:387-408 | Appends header and data, or nothing when over-long, which poisons the packer |
| Packers.Packer.WriteStructHeader | crates/graphus-bolt/src/packstream.rs:426-442 | Refused, writing nothing, above fifteen fields |
| Packers.Packer.WriteCollectionHeader | crates/graphus-bolt/src/packstream.rs:445-466 | Appends the shortest header; an over-long length poisons the packer |
| Packers.Packer.MarkOverflow | crates/graphus-bolt/src/packstream.rs:471-475 | Only the first over-long length is kept |
| Packers.Packer.PackValue | crates/graphus-bolt/src/packstream.rs:865-868 | Appends exactly the encoding of the value and keeps the first over-long length |
| Packers.Packer.PackValueAt | crates/graphus-bolt/src/packstream.rs:871-916 | The same at any depth, a value too deep being written as null |
| Packers.Packer.PackItemsAt | crates/graphus-bolt/src/packstream.rs:886-892 | The loop over list items appends their encodings in order |
| Packers.Packer.PackEntriesAt | crates/graphus-bolt/src/packstream.rs:893-900 | The loop over map entries appends keys and values in order |
| Packers.Packer.PackTemporal | crates/graphus-bolt/src/packstream.rs:1781-1867 | Appends the structure of the temporal class |
| Packers.Packer.PackZonedDateTime | crates/graphus-bolt/src/packstream.rs:1812-1857 | Appends UTC seconds with an offset, or with a zone id when there is one |
| Packers.Packer.PackPoint | crates/graphus-bolt/src/packstream.rs:1177-1195 | Appends SRID and coordinates under the tag of the dimension |
| Unpackers.Unpacker.EnterNested | crates/graphus-bolt/src/packstream.rs:599-607 | Refused at 64 open levels, else one level deeper |
| Unpackers.Unpacker.LeaveNested | crates/graphus-bolt/src/packstream.rs:610-612 | One level back |
| Unpackers.Unpacker.ChargeElement | crates/graphus-bolt/src/packstream.rs:626-635 | Refused when the element budget is spent, else one less |
| Unpackers.Unpacker.ReadU8 | crates/graphus-bolt/src/packstream.rs:649-656 | One byte, or the end-of-input error |
| Unpackers.Unpacker.ReadRaw | crates/graphus-bolt/src/packstream.rs:659-678 | The next bytes, or a refusal that moves nothing past the end |
| Unpackers.Unpacker.ReadBeLen | crates/graphus-bolt/src/packstream.rs:681-689 | A big-endian length of the given width |
| Unpackers.Unpacker.ReadInteger | crates/graphus-bolt/src/packstream.rs:700-724 | The cursor does what reading the specified integer does |
| Unpackers.Unpacker.ReadText | crates/graphus-bolt/src/packstream.rs:731-756 | A string of valid UTF-8, or the specified error |
| Unpackers.Unpacker.ReadCollectionHeader | crates/graphus-bolt/src/packstream.rs:739-795 | The specified header, in any of its four spellings |
| Unpackers.Unpacker.ReadStructureHeader | crates/graphus-bolt/src/packstream.rs:797-827 | Tag and field count, the tag below 0x80 |
| Unpackers.Unpacker.UnpackBytes | crates/graphus-bolt/src/packstream.rs:1764-1779 | A byte string or the specified error |
| Unpackers.Unpacker.UnpackValue | crates/graphus-bolt/src/packstream.rs:1284-1363 | On every byte string the cursor answers as the pure decoder: same value or error, same bytes left, same budget, same level |
| Unpackers.Unpacker.UnpackListItems | crates/graphus-bolt/src/packstream.rs:1312-1325 | The loop over list items refines the pure recursion |
| Unpackers.Unpacker.UnpackMapEntries | crates/graphus-bolt/src/packstream.rs:1326-1341 | The loop with the accumulator refines the pure recursion followed by deduplication |
| Unpackers.Unpacker.UnpackStructuredValue | crates/graphus-bolt/src/packstream.rs:1367-1544 | Temporal and point structures as specified; graph structures and unknown tags refused |
| Unpackers.Unpacker.UnpackTemporal | crates/graphus-bolt/src/packstream.rs:1369-1518 | Each temporal structure as specified |
| Unpackers.Unpacker.ReadFloatFields | crates/graphus-bolt/src/packstream.rs:2012-2021 | Coordinates given as floats or as integers |
| CellRoundTrip.ReencodingIsByteStable | crates/graphus-bolt/src/packstream.rs:1046-1168 | A result cell decodes to its normal form, which is encoded with the same bytes as the cell |
| CellRoundTrip.CellTrip | crates/graphus-bolt/src/packstream.rs:1059-1072 | Decoding an encoded cell followed by any bytes gives its normal form and those bytes |
| CellRoundTrip.NormalBytes | crates/graphus-bolt/src/packstream.rs:1046-1168 | A cell and its normal form have the same encoding |
| CellRoundTrip.DecimalIsText | crates/graphus-bolt/src/packstream.rs:1037-1039 | A synthesised element id is always a string the codec carries |
| CellRoundTrip.NodeRoundTrip | crates/graphus-bolt/src/packstream.rs:1076-1093 | A node survives, its element id as a carried string |
| CellRoundTrip.RelationshipRoundTrip | crates/graphus-bolt/src/packstream.rs:1097-1118 | A relationship survives, its three element ids as carried strings |
| CellRoundTrip.UnboundRoundTrip | crates/graphus-bolt/src/packstream.rs:1122-1138 | An unbound relationship survives without its endpoints |
| CellRoundTrip.PathRoundTrip | crates/graphus-bolt/src/packstream.rs:1143-1159 | A path survives with its nodes, unbound relationships and signed indices |
| CellCanonicalisation.CellCanonicalisedOnce | crates/graphus-bolt/src/packstream.rs:1556-1596 | Any accepted cell of at most i32::MAX bytes comes back unchanged from its own encoding |
| CellCanonicalisation.CellSound | crates/graphus-bolt/src/packstream.rs:1556-1722 | Every accepted cell is already normal, within depth 64 and the element budget, with fewer elements than bytes consumed; up to i32::MAX bytes of input it is also in the domain |
| CellCanonicalisation.CellAccepted | crates/graphus-bolt/src/packstream.rs:1059-1168 | A cell in the domain is never refused by the encoder |
| CellCursors.PackCell | crates/graphus-bolt/src/packstream.rs:1059-1072 | Appends exactly the specified encoding of a cell |
| CellCursors.PackNode | crates/graphus-bolt/src/packstream.rs:1076-1093 | The same for a node |
| CellCursors.PackRelationship | crates/graphus-bolt/src/packstream.rs:1097-1118 | The same for a relationship |
| CellCursors.PackPath | crates/graphus-bolt/src/packstream.rs:1143-1159 | The same for a path, loop by loop |
| CellCursors.PackProperties | crates/graphus-bolt/src/packstream.rs:1162-1168 | The same for a property map |
| CellCursors.ReadCell | crates/graphus-bolt/src/packstream.rs:1556-1596 | The cursor answers as the pure cell decoder on every byte string |
| CellCursors.ReadProperties | crates/graphus-bolt/src/packstream.rs:1599-1614 | The same for a property map, duplicates collapsed |
| CellCursors.ReadNode | crates/graphus-bolt/src/packstream.rs:1617-1645 | The same for a node |
| CellCursors.ReadRelationship | crates/graphus-bolt/src/packstream.rs:1647-1672 | The same for a relationship |
| CellCursors.ReadUnbound | crates/graphus-bolt/src/packstream.rs:1674-1694 | The same for an unbound relationship |
| CellCursors.ReadPath | crates/graphus-bolt/src/packstream.rs:1696-1722 | The same for a path |
| MessageRoundTrip.EndToEnd | crates/graphus-bolt/src/message.rs:257-453 | Any pipeline of requests, encoded, chunked and delivered in arbitrary pieces, is read as exactly those messages in order and each decodes at the version to the request sent |
| MessageRoundTrip.EndToEndAnswered | crates/graphus-bolt/src/message.rs:257-453 | With as many questions after the last delivery as requests, the answers alone are the messages |
| Conversations.Converse | crates/graphus-bolt/src/message.rs:257-453 | Encoder, chunker, incremental reader and version-gated decoder joined, the stream cut anywhere: every request is received as itself, in order, and nothing else is |
| Conversations.Drain | crates/graphus-bolt/src/framing.rs:165-217 | Taking and decoding every buffered frame, with whatever arrives later, loses and invents no frame of the stream |
| Conversations.Send | crates/graphus-bolt/src/framing.rs:43-53 | Every request encoded and chunked onto one stream |
| MessageRoundTrip.RequestRoundTripExactly | crates/graphus-bolt/src/message.rs:297-453 | An encodable request decodes to itself if and only if it is in the domain |
| MessageRoundTrip.RequestCanonicalisedOnce | crates/graphus-bolt/src/message.rs:257-453 | Any accepted payload of at most i32::MAX bytes gives a request that can be encoded and decodes to itself |
| MessageRoundTrip.DecodedIsInDomain | crates/graphus-bolt/src/message.rs:297-390 | Every accepted request is in the domain |
| MessageRoundTrip.GateDecides | crates/graphus-bolt/src/message.rs:279-294 | The version gate refuses on the opcode alone or changes nothing |
| MessageRoundTrip.AcceptanceIsMonotone | crates/graphus-bolt/src/message.rs:98-123 | What a minor accepts, every later minor of the major accepts with the same result |
| MessageRoundTrip.EncodedDecodesAt | crates/graphus-bolt/src/message.rs:279-294 | An encodable request in the domain decodes at every version that defines its opcode |
| Responses.ResponseRoundTrip | crates/graphus-bolt/src/message.rs:479-555 | A response in the domain is never refused and decodes to itself, record cells in normal form |
| Responses.ResponseCanonicalisedOnce | crates/graphus-bolt/src/message.rs:512-555 | Any accepted response of at most i32::MAX bytes comes back unchanged from its own encoding |
| MessageCursors.EncodeRequest | crates/graphus-bolt/src/message.rs:398-453 | The packer-driven encoder yields the specified bytes, or nothing when a length or field count is refused |
| MessageCursors.PackBody | crates/graphus-bolt/src/message.rs:400-452 | Appends the fields of each request in order |
| MessageCursors.DecodeRequest | crates/graphus-bolt/src/message.rs:257-262 | The unpacker-driven decoder is the specified one on every payload |
| MessageCursors.DecodeRequestAt | crates/graphus-bolt/src/message.rs:279-294 | The same behind the version gate, fields not read when it refuses |
| MessageCursors.EncodeResponseInto | crates/graphus-bolt/src/message.rs:479-505 | Appends the specified response bytes |
| MessageCursors.DecodeResponsePayload | crates/graphus-bolt/src/message.rs:512-555 | The specified response decoder on every payload |
| Framing.DeliveryIndependence | crates/graphus-bolt/src/framing.rs:134-217 | However a stream is cut and whenever frames are asked for, the frames answered, then those still buffered, are those of one parse of the whole stream; so are the state left and the verdict |
| Framing.ParseIsGrouping | crates/graphus-bolt/src/framing.rs:165-217 | That parse finds exactly the frames the chunk format spells out, up to the first message whose headers announce more bytes than the cap; it refuses if and only if there is one |
| Framing.NextGrouped | crates/graphus-bolt/src/framing.rs:165-217 | The same for one call: the next frame of the format, more bytes needed, or a refusal exactly when the open message is announced over the cap |
| Framing.RefusalIsFinal | crates/graphus-bolt/src/framing.rs:196-204 | Once refused for size, every later answer is the same refusal, whatever arrives |
| Framing.RefusalSettles | crates/graphus-bolt/src/framing.rs:196-204 | A refusal leaves the reader in such a state |
| Framing.RunWithinCap | crates/graphus-bolt/src/framing.rs:196-204 | No run ever holds or hands out a payload above the cap |
| Framing.ParseOfChunks | crates/graphus-bolt/src/framing.rs:43-53 | A chunked message parses to that message and what follows it |
| Framing.MessagesSurviveDelivery | crates/graphus-bolt/src/framing.rs:43-217 | Chunked messages within the cap, delivered in any pieces, come out in order and nothing else does |
| Framing.AllFramesAnswered | crates/graphus-bolt/src/framing.rs:165-217 | Once enough questions follow the last delivery, the answers alone are the frames of the stream |
| Framing.ChunkMessageInto | crates/graphus-bolt/src/framing.rs:43-53 | The loop appends the specified chunks and end marker |
| Dechunkers.Dechunker.Push | crates/graphus-bolt/src/framing.rs:134-137 | The pending bytes grow by the delivery; compaction is invisible |
| Dechunkers.Dechunker.Compact | crates/graphus-bolt/src/framing.rs:143-153 | Dropping consumed bytes changes nothing observable |
| Dechunkers.Dechunker.NextFrame | crates/graphus-bolt/src/framing.rs:165-217 | Cursor, lazy compaction and assembly buffer refine the pure step, state and answer |
| Dechunkers.Dechunker.TakeChunk | crates/graphus-bolt/src/framing.rs:206-213 | Moves one whole chunk from behind the cursor to the message being assembled |
| Dechunkers.Dechunker.CompactIfDrained | crates/graphus-bolt/src/framing.rs:221-226 | Resetting a drained buffer changes nothing observable |
| Dechunkers.Dechunker.HasBuffered | crates/graphus-bolt/src/framing.rs:230-233 | True exactly when bytes or a partial message are waiting |
| Dechunkers.Drive | crates/graphus-bolt/src/framing.rs:134-217 | Any run of the reader gives the answers, and leaves the state, of the same run of the pure machine |
| Handshake.FirstSatisfiableSlotWins | crates/graphus-bolt/src/handshake.rs:294-299 | Nothing is granted exactly when no slot is satisfiable; else the first satisfiable slot, at the highest minor it shares with the cap |
| Handshake.BestSupportedMinorWithin | crates/graphus-bolt/src/handshake.rs:215-228 | The downward search finds the best minor of the slot under the cap |
| Handshake.BestIsSatisfiable | crates/graphus-bolt/src/handshake.rs:215-228 | A best minor exists exactly when the slot is satisfiable |
| Handshake.SelectByPosition | crates/graphus-bolt/src/handshake.rs:330-338 | Manifest is chosen exactly when its marker precedes every satisfiable slot; else the legacy answer of the slots before it |
| Handshake.BothFormsOfferTheSameWindow | crates/graphus-bolt/src/handshake.rs:141-155 | The advertised manifest range spans exactly the versions supported at the cap, and an exact legacy proposal is granted for exactly those |
| Handshake.GrantedIsSupported | crates/graphus-bolt/src/handshake.rs:294-299 | Whatever the legacy form grants is supported at the cap |
| Handshake.HandshakeRoundTrip | crates/graphus-bolt/src/handshake.rs:236-258 | Magic and four proposals are read back |
| Handshake.VarintRoundTrip | crates/graphus-bolt/src/handshake.rs:366-404 | Every u64 is read back from its varint, bytes behind it untouched |
| Handshake.WriteVarint | crates/graphus-bolt/src/handshake.rs:366-376 | The loop appends the specified groups |
| Handshake.ReadVarintAt | crates/graphus-bolt/src/handshake.rs:382-404 | The loop refines the recursive reader: value below 2^64, or truncated, or overflow |
| Handshake.ManifestChoiceRoundTrip | crates/graphus-bolt/src/handshake.rs:467-497 | Version and any u64 capability mask are read back |
| Handshake.ServerManifestReadsBack | crates/graphus-bolt/src/handshake.rs:413-423 | The advertised manifest's marker, count, ranges and mask are read back |
| RateLimiters.Conservation | crates/graphus-auth/src/limits.rs:87-122 | Over any sequence of requests and looks at any clock readings, forward or backward: tokens handed out, kept and spilled never exceed what time put in, and fall short by less than one scaled unit per call that moved the clock |
| RateLimiters.NeverOverAdmits | crates/graphus-auth/src/limits.rs:87-122 | Over any stretch of requests and looks, admissions are at most one full bucket plus the refill of the elapsed time |
| RateLimiters.CallConserves | crates/graphus-auth/src/limits.rs:107-122 | The same for one call |
| RateLimiters.Drive | crates/graphus-auth/src/limits.rs:65-122 | A limiter driven through any calls answers as the specified run and admits within the bound |
| RateLimiters.RunKeepsShape | crates/graphus-auth/src/limits.rs:87-122 | Over any calls availability never exceeds capacity, and the last refill is the latest reading seen |
| RateLimiters.ProductFits | crates/graphus-auth/src/limits.rs:95-97 | The refill product never exceeds 128 bits |
| RateLimiters.RateLimiter.Create | crates/graphus-auth/src/limits.rs:65-84 | Refused exactly for a zero capacity or rate; else a full bucket |
| RateLimiters.RateLimiter.RefillNow | crates/graphus-auth/src/limits.rs:87-103 | The saturating 64-bit arithmetic equals the plain capped sum |
| RateLimiters.RateLimiter.TryAcquire | crates/graphus-auth/src/limits.rs:107-114 | Admits exactly when a whole token is there after the refill, and takes it |
| RateLimiters.RateLimiter.AvailableTokens | crates/graphus-auth/src/limits.rs:119-122 | The whole tokens after a refill, never saturated |
| VerifyLimiters.CounterIsExact | crates/graphus-auth/src/limits.rs:444-486 | Over every interleaving of loads, weak exchanges and drops by any number of calls, the counter is the number of live slot-holding permits and at most the bound; only an unbounded limiter hands out permits without a slot |
| VerifyLimiters.StepConsistent | crates/graphus-auth/src/limits.rs:449-486 | Each atomic step keeps that, and a drop never finds the counter at zero |
| VerifyLimiters.RefusalIsJustified | crates/graphus-auth/src/limits.rs:451-453 | Every refused call was undecided at a moment when the counter was at the bound |
| VerifyLimiters.AdmissionIsJustified | crates/graphus-auth/src/limits.rs:454-464 | Every slot is taken at a moment of its call when the counter was below the bound, and raises it by one |
| VerifyLimiters.ReadingIsGenuine | crates/graphus-auth/src/limits.rs:449-466 | What an undecided call last read was the counter at some moment of the call |
| Rbac.CoversIsPrefix | crates/graphus-auth/src/rbac.rs:222-257 | One resource covers another exactly when it lies on the way to it from the server |
| Rbac.ActionsAreCapabilities | crates/graphus-auth/src/rbac.rs:97-113 | One action implies another exactly when it has all its capabilities |
| Rbac.ImpliesIsPartialOrder | crates/graphus-auth/src/rbac.rs:423-425 | Holding is reflexive, transitive and antisymmetric on privileges |
| Rbac.BlocksSpreads | crates/graphus-auth/src/rbac.rs:464-466 | A deny that blocks a request blocks every stronger action and every narrower resource |
| CatalogState.EveryRunKeepsIntegrity | crates/graphus-auth/src/rbac.rs:581-935 | After any sequence of operations every user references only existing roles and everything is filed under its own name |
| CatalogState.StepKeepsIntegrity | crates/graphus-auth/src/rbac.rs:581-935 | Each operation, refused or not, keeps that |
| CatalogState.RenameRoleKeepsDecisions | crates/graphus-auth/src/rbac.rs:787-814 | In every reachable catalog, renaming a role, refused or not, changes no decision for any user and request |
| CatalogState.RenameUserCarriesDecisions | crates/graphus-auth/src/rbac.rs:755-778 | Renaming a user carries every decision to the new name, leaves the old name with none and everyone else's alone |
| CatalogState.SnapshotsDecide | crates/graphus-auth/src/rbac.rs:959-1036 | A global administrator is always authorised; for anyone else the decision is: some effective grant implies the request and no effective deny blocks it |
| CatalogState.ClosedDownwardInAction | crates/graphus-auth/src/rbac.rs:423-466 | At a fixed resource authorisation extends to every implied action, denies notwithstanding |
| CatalogState.NarrowerResourceUnlessDenied | crates/graphus-auth/src/rbac.rs:959-989 | Authorisation extends to a covered resource if and only if the user is a global administrator or no effective deny blocks the narrower request |
| CatalogState.NarrowerResourceCanBeDenied | crates/graphus-auth/src/rbac.rs:959-989 | A concrete run in which it does not extend |
| CatalogState.PrivilegeEditsAreMonotone | crates/graphus-auth/src/rbac.rs:877-935 | Granting and un-denying never take a decision away; denying and un-granting never give one |
| CatalogState.AdminsCannotBeDenied | crates/graphus-auth/src/rbac.rs:945-952 | No sequence of denies takes anything from a global administrator |
| CatalogState.UndoRestores | crates/graphus-auth/src/rbac.rs:581-935 | Whatever a create, rename, grant, revoke, deny or un-deny changed, its opposite restores to the letter |
| CatalogState.MembershipBringsAll | crates/graphus-auth/src/rbac.rs:840-871 | Granting a role adds exactly its grants and denies to the user's snapshots; revoking a held role takes it from the user, whose snapshots were what remains plus the role's own |
| CatalogState.GrantReachesMembers | crates/graphus-auth/src/rbac.rs:877-887 | A privilege granted to a role authorises every member for what it implies unless a deny blocks it |
| CatalogState.DenyStopsMembers | crates/graphus-auth/src/rbac.rs:910-920 | A privilege denied to a role stops every member but a global administrator, whatever they are granted |
| CatalogState.NothingWithoutGrants | crates/graphus-auth/src/rbac.rs:937-989 | After any run without a grant of a privilege, or without a grant of a role, nobody is authorised for anything |
| Catalogs.Catalog.CreateUserNamed | crates/graphus-auth/src/rbac.rs:581-590 | The specified answer and state; a taken name is refused |
| Catalogs.Catalog.DropUserNamed | crates/graphus-auth/src/rbac.rs:596-603 | The specified answer and state; an unknown name is refused |
| Catalogs.Catalog.CreateRoleNamed | crates/graphus-auth/src/rbac.rs:721-730 | The specified answer and state; a taken name is refused |
| Catalogs.Catalog.DropRoleNamed | crates/graphus-auth/src/rbac.rs:739-749 | The loop over users takes the role from every one of them |
| Catalogs.Catalog.RenameUserTo | crates/graphus-auth/src/rbac.rs:757-778 | The specified answer and state, a taken name reported before a missing one |
| Catalogs.Catalog.RenameRoleTo | crates/graphus-auth/src/rbac.rs:787-814 | The loop over users rewrites every membership of the old name |
| Catalogs.Catalog.GrantRoleTo | crates/graphus-auth/src/rbac.rs:840-853 | The specified answer and state |
| Catalogs.Catalog.RevokeRoleFrom | crates/graphus-auth/src/rbac.rs:861-871 | The specified answer and state; revoking what is not held succeeds |
| Catalogs.Catalog.EditGrants | crates/graphus-auth/src/rbac.rs:877-902 | Granting and revoking a privilege leave the denies alone |
| Catalogs.Catalog.EditDenies | crates/graphus-auth/src/rbac.rs:910-935 | Denying and un-denying leave the grants alone |
| Catalogs.PerformAll | crates/graphus-auth/src/rbac.rs:581-935 | A catalog driven through any operations is the specified run, with integrity |

## Left out

- The concurrent buffer pool and the Bolt session state machine (`concurrent.rs`, `server.rs`).
- `AuthThrottle`: its per-account map is a set of token buckets with an eviction rule; the bucket
  itself is modelled.
- Weak memory: the permit limiter's steps are interleaved one at a time on a single counter, so a
  load always sees the latest value.
- Pool.BufferPool.Fetch: the panic of a build with overflow checks, when a page is pinned 2^32 times,
  is not modelled; the wrap of a release build is.
- Pool.BufferPool.PageMut: hands out no mutable reference; the page that the client leaves behind is
  a parameter. A handle out of range, which panics in the code, and a frame that holds no page, which
  would become dirty and make a later write-back panic, are excluded by preconditions.
- VerifyLimiters.CounterIsExact: the retry loop is a sequence of steps, so nothing is said about how
  many retries a call may need.
- Packers.Packer.PackValueAt: the depth bound of 1000 applies to property values only; the cell
  encoder has none in the code, and the model follows it by recursion on the cell.
- Catalogs.Catalog.EditGrants and EditDenies each stand for two operations of the code, which
  differ only in adding or removing. Password hashes, credential versions and suspension are carried
  by users but their setters are not modelled, nor are edits through `user_mut`.
- `covers_ref`, `implies_ref` and `blocks_ref`: in the model borrowed and owned names are the same
  value, so the twins coincide with `Covers`, `Implies` and `Blocks`.
- The text of error messages; errors are told apart by kind.
- Allocation sizes, timing and native stack use, none of which changes a result.
- The CRC32C polynomial, IEEE arithmetic and the IANA zone tables, which stay uninterpreted.
- Passwords, tokens, TLS and peer credentials; the executor and transport traits; benchmarks, content
  hashing and the knowledge-graph scripts.
