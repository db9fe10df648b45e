# DWM1001 gateway: a Dafny model of its decoders and policies

The gateway scripts under `gateway/` talk Bluetooth Low Energy to Decawave
DWM1001 nodes, then forward what they read to a server. Apart from the
Bluetooth and HTTP plumbing, they contain two kinds of logic:

- **Byte-layout decoders and encoders** for the node's characteristics:
  - Location Data in modes 0, 1 and 2, with the variants in `main.py`/`test.py`, `notify.py`, `mmm.py` and `test_all.py`.
  - Operation Mode.
  - Device Info, Persisted Position, MAC Stats, Cluster Info and Anchor List (`zzz.py`, `xxx.py`).
  - Proxy Positions.
  - Update Rate.
- **Small pure policies**:
  - the tag send-rate rule and the module registry of `test_all.py`;
  - the five-sample averaging window of `yyy.py`.

This project restates that logic as pure Dafny functions over byte sequences and proves what the scripts rely on.

Conventions:

- A byte is an integer in 0..255.
- A Python exception, or an error dict, becomes a `Failure`.
- A decoded dict is a record whose optional fields are present exactly when the dict has the key.
- `x / 1000` is an exact `real` number of metres.

Modules, one per file:

| file | module | models |
|---|---|---|
| `wrappers.dfy` | `Wrappers` | `Option`, `Result` and the error kinds |
| `bytes.dfy` | `Bytes` | Python slicing, `struct` little-endian packing and unpacking |
| `text.dfy` | `Text` | `bytes.hex`, `bytes.fromhex`, the bit-string renderings |
| `location.dfy` | `Location` | `location.py` mode 0/1/2 decoders, encoders, the captured frames |
| `rawframes.dfy` | `RawFrames` | `decode_raw_data` of `main.py` and `test.py` |
| `notify.dfy` | `Notify` | `notify.py` dispatcher and callback |
| `floatframes.dfy` | `FloatFrames` | `mmm.py` float32 frame decoder with its truncating ranging parser |
| `opmode.dfy` | `OperationMode` | the full Operation Mode bitfield (`tag-op-check.py`) and the role-bit readers and writer (`utils.py`, `test_all.py`) |
| `anchor.dfy` | `Anchor` | the anchor characteristics of `zzz.py` and `xxx.py`, and the UUID-to-decoder table |
| `proxy.dfy` | `ProxyPositions` | the Proxy Positions parsing loop of `proxy.py` |
| `updaterate.dfy` | `UpdateRate` | the 8-byte update-rate payload of `rate-set.py` and `update_rate.py` |
| `tagpolicy.dfy` | `TagPolicy` | `process_location_data` and the `handle_notify` send-rate rule of `test_all.py` |
| `registry.dfy` | `Registry` | the module registry of `test_all.py` |
| `window.dfy` | `SampleWindow` | the sliding window and averaging loop of `yyy.py` |

Points where the variants differ, each stated in the model:

- **Short ranging lists.** `location.py` raises on a short list; `mmm.py` silently truncates it but keeps the declared count.
- **Type-1 frames.** `main.py`/`test.py` pass a type-1 frame to the mode-1 decoder whole, so the type byte is read as the entry count.
- **Decoder choice.** `notify.py` picks its decoder from an argument, never from the frame, and its callback always passes 2.
- **Signed versus unsigned.** `test_all.py` reads coordinates unsigned where `location.py` reads them signed. The send-rate rule compares those unsigned values, so a tag stepping 2 mm across x = 0 counts as moving (`TagPolicy.ZeroCrossingCountsAsMoving`).

## Model

| member | source | states |
|---|---|---|
| `Text.FromHexOfHex` | gateway/test_all.py:179 | `bytes.fromhex` reads back exactly the bytes whose `hex()` it is given |
| `Text.HexInjective` | gateway/zzz.py:43 | two inputs with the same `raw_hex` are the same bytes, so `raw_hex` identifies the value read |
| `Text.HexAppend` | gateway/rate-set.py:41-43 | the hex of a concatenation is the concatenation of the hex texts |
| `Text.ZFillBinIsFormat` | gateway/location.py:18 | `bin(b)[2:].zfill(8)` and `format(b, '08b')` give the same eight characters for every byte |
| `Text.BinaryList` | gateway/main.py:29-30 | one string per byte, in order; each has 8 characters and spells that byte in binary, most significant bit first |
| `Text.ByteBits` | gateway/test.py:31-32 | the rendering of a byte has exactly 8 bit characters and spells the byte's value |
| `Text.RawToBits` | gateway/location.py:15-20 | empty input gives ""; otherwise the length is 9n-1, byte i's bits are at 9i..9i+8, and single spaces separate the bytes |
| `Text.RawToBitsIsJoin` | gateway/utils.py:7-12 | building with a trailing space and stripping it equals `" ".join` of the per-byte strings, so `utils.py` and `location.py` agree with `main.py`'s list |
| `Location.Update` | gateway/location.py:63-64 | `dict.update`: keys of the second dict take its values, all other keys keep the first's, and the key set is the union |
| `Location.UpdateDisjoint` | gateway/location.py:59-65 | with disjoint key sets neither update overwrites the other, and the order of the two updates does not matter |
| `Location.DecodeMode0` | gateway/location.py:23-34 | empty input raises an index error; succeeds iff at least 14 bytes; gives "Mode:" = byte 0 and the position from bytes 1..13 |
| `Location.DistanceList` | gateway/location.py:43-45 | the loop succeeds iff every one of the `count` 7-byte slices is complete, and then yields exactly `count` entries |
| `Location.DistanceListAt` | gateway/location.py:44-45 | entry j of a list read from `off` is unpacked from the seven bytes at `off + 7j` |
| `Location.DecodeMode1` | gateway/location.py:36-54 | the count is `data[0]`; succeeds iff `1 + 7*count <= len`; gives exactly `count` entries, entry j from bytes `1+7j..7+7j` |
| `Location.DecodeMode2Layout` | gateway/location.py:59-65 | mode 2 succeeds iff the frame has 15 bytes and room for `data[14]` entries after them; gives the four keys, the position from bytes 1..13 and the entries from offset 15 |
| `Location.Mode2PartsDisjoint` | gateway/location.py:61-62 | the key sets of the two halves are disjoint, so neither overwrites the other |
| `Location.Mode0IgnoresTail` | gateway/location.py:27 | bytes after index 13 never change a mode-0 decode |
| `Location.Mode1IgnoresTail` | gateway/location.py:45 | bytes after the declared list never change a successful mode-1 decode |
| `Location.PositionRoundTrip` | gateway/location.py:27-33 | the 13-byte block written for x, y, z millimetres and a quality reads back as those values in metres |
| `Location.EntriesRoundTrip` | gateway/location.py:45-50 | entry j of an encoded list reads back as the j-th written entry, in metres |
| `Location.Mode0RoundTrip` | gateway/location.py:23-34 | an encoded mode-0 frame decodes to its mode byte and position |
| `Location.Mode1RoundTrip` | gateway/location.py:36-51 | an encoded mode-1 frame decodes to its count and every entry, in order |
| `Location.Mode1EntryRoundTrip` | gateway/location.py:44-48 | entry j of an encoded mode-1 frame is read back from offset `1 + 7j` |
| `Location.CaptureBlockPosition` | gateway/location.py:67 | the captured position block is mode 2 at (0.707, 0.542, 1.129) m with quality 56 |
| `Location.FullCapturePosition` | gateway/location.py:68 | mode 0 of the 43-byte capture gives X=0.707, Y=0.542, Z=1.129, quality 56 |
| `Location.FullCaptureRanging` | gateway/location.py:70 | mode 1 of the capture's tail gives count 4, the first entry node 0xD40F at 2.318 m with quality 100 |
| `Location.ShortCaptureFails` | gateway/location.py:67 | the 16-byte capture declares 4 entries with one byte after the count, so mode 1 of its tail and mode 2 of it raise |
| `RawFrames.DecodeRawData` | gateway/main.py:33-62 | empty input gives None; a success always carries "type" = byte 0; type 0 needs at least 14 bytes, type 1 at least 8, type 2 a complete list; types above 2 give `{"type": t}` alone |
| `RawFrames.RawType0Fields` | gateway/main.py:50-54 | a type-0 frame of 14 or more bytes gives the type, the mode byte and the position |
| `RawFrames.RawType1SingleEntry` | gateway/main.py:47-48 | a type-1 frame gives count 1 and one entry from bytes 1..7, whatever byte 1 declares |
| `RawFrames.RawType2Fields` | gateway/main.py:44-45 | a complete type-2 frame gives exactly `{"type": 2}` updated by `decode_location_mode_2(data)`, so the position, count and every distance entry are mode 2's; all five keys are present, and "type" and "Mode:" agree |
| `RawFrames.RawFullCapture` | gateway/test.py:35-64 | the 43-byte capture passes the polling decoder with its position and count 4 (`test.py` repeats `main.py` line for line) |
| `RawFrames.DecodeRawDataCorrected` | gateway/main.py:47-48 | reads a type-1 list from `data[1:]`; agrees with the script on every other type |
| `RawFrames.CorrectedType1RoundTrip` | gateway/test.py:49-50 | the corrected decoder gives back the count and every entry of a type-1 frame |
| `RawFrames.Type1CountIsTypeByte` | gateway/main.py:47-48 | as written, a type-1 frame with two or more entries is reported with count 1 and a single entry |
| `Notify.DecodeLocationData` | gateway/notify.py:15-24 | None iff the mode is not 0, 1 or 2; modes 0, 1 and 2 succeed exactly when `decode_location_mode_0/_1/_2` of the same data does and then return that decoder's dict; the success conditions of all three modes spelled out on the bytes |
| `Notify.Mode2Keys` | gateway/notify.py:21-22 | a successful mode-2 decode carries all four keys, with "Mode:" = `data[0]` |
| `Notify.ModeArgumentDecides` | gateway/notify.py:17-18 | the decoder follows the mode argument: the mode-2 capture decoded with mode 0 is a position whose "Mode:" is 2 |
| `Notify.NotificationHandler` | gateway/notify.py:27-33 | the callback always decodes as mode 2: succeeds exactly when `decode_location_mode_2(data)` does and then returns that decoder's dict, so it succeeds iff the frame holds a complete mode-2 list and then carries all four keys |
| `Notify.HandlerRejectsPositionFrames` | gateway/notify.py:32 | a 14-byte position notification always raises in the callback, although mode 0 would decode it |
| `FloatFrames.ParsePositionData` | gateway/mmm.py:31-35 | succeeds iff at least 14 bytes; reports x as the float32 bytes 1..4, y as bytes 5..8 and the quality from byte 13 |
| `FloatFrames.PositionIgnoresZ` | gateway/mmm.py:35 | the z bytes never reach the report |
| `FloatFrames.Entries` | gateway/mmm.py:42-49 | the loop yields `min(count, whole 7-byte entries left)` entries |
| `FloatFrames.EntriesLayout` | gateway/mmm.py:43-49 | entry j comes from the seven bytes at `offset + 7j` |
| `FloatFrames.ParseDistanceData` | gateway/mmm.py:38-50 | raises iff there is no count byte; reports the declared count and `min(count, (len - offset - 1) div 7)` entries |
| `FloatFrames.DistanceEntryLayout` | gateway/mmm.py:45-47 | entry i has node id at `offset+1+7i` and quality at `offset+7+7i` |
| `FloatFrames.TruncatingVersusStrict` | gateway/mmm.py:42-44 | where `location.py` succeeds, this parser gives the same count, node ids and qualities; where it raises, this one returns fewer entries than declared |
| `FloatFrames.DecodeRawData` | gateway/mmm.py:53-69 | None for empty input and types above 2; type 0 needs 14 bytes, type 1 two, type 2 fifteen; the position, present iff the type is not 1, is `parse_position_data(data)`; the distances, present iff the type is not 0, are `parse_distance_data` at offset 1 for type 1 and 14 for type 2, with the count from byte 1 or byte 14 |
| `FloatFrames.ShortCaptureTruncated` | gateway/mmm.py:56-58 | the 16-byte capture that `location.py` rejects decodes here with count 4 and no entries |
| `OperationMode.DecodeOperationMode` | gateway/tag-op-check.py:12-56 | length other than 2 raises; UWB value 3 raises; node type is anchor iff bit 7 of byte 0; UWB mode is bits 6-5 |
| `OperationMode.EncodedBits` | gateway/tag-op-check.py:19-30 | each field the decoder reads sits in its own bit: role bit 7, UWB bits 6-5, firmware bit 4, the three enables bits 3-1; initiator byte 1 bit 7 for anchors, low power and location engine bits 6 and 5 for tags |
| `OperationMode.DecodeEncode` | gateway/tag-op-check.py:40-54 | every operation mode survives encoding then decoding; an anchor result has only the initiator flag and a tag result only its two flags |
| `OperationMode.ReservedBitsIgnored` | gateway/tag-op-check.py:18-31 | two inputs that differ only in byte 0 bit 0 and byte 1 bits 4-0 decode alike |
| `OperationMode.FirstByteBack` | gateway/tag-op-check.py:19-25 | a decoded mode re-encodes to its first byte with reserved bit 0 cleared, so byte 0 is fully read |
| `OperationMode.SecondByteBack` | gateway/tag-op-check.py:49-54 | the second byte re-encodes with only bit 7 kept for an anchor and only bits 6-5 for a tag |
| `OperationMode.AnchorExample` | gateway/tag-op-check.py:61-63 | bytes `80 00` decode to anchor, UWB off, firmware 1, all enables off, initiator off |
| `OperationMode.RoleOf` | gateway/utils.py:15-16 | raises on empty input; 'tag' iff bit 7 of byte 0 is clear |
| `OperationMode.EncodeRole` | gateway/test_all.py:51-52 | 'tag' writes `00 00`; every other string writes `80 00` |
| `OperationMode.RoleRoundTrip` | gateway/test_all.py:46-52 | decode(encode(r)) gives r back for 'tag' and 'anchor'; any other name comes back as an anchor |
| `OperationMode.RoleOnlyBit7` | gateway/utils.py:16 | inputs that agree on bit 7 of byte 0 get the same role, whatever else they hold and however long they are |
| `OperationMode.RoleAgreesWithFullDecode` | gateway/tag-op-check.py:33-34 | where the full decoder succeeds, the role-bit decoder names the same node type |
| `Anchor.DecodeOperationMode` | gateway/zzz.py:14-24 | error iff fewer than 2 bytes; longer input accepted; `initiator_enable` iff bit 7 of byte 1; `raw_hex` is the whole input |
| `Anchor.DecodeDeviceInfo` | gateway/zzz.py:26-44 | error iff fewer than 29 bytes; 16-character node id; five 32-bit words; `is_bridge` iff bit 7 of byte 28; `extra_data` is the hex of bytes 29 on, empty iff exactly 29 bytes; the id and word values are pinned, for every length, by `DeviceInfoDecodersAgree` with `DeviceRecordRoundTrip` |
| `Anchor.DecodeDeviceRecord` | gateway/xxx.py:22-34 | None iff the length is not 29; 16-character node id; five 32-bit words; operation flags the whole of byte 28 |
| `Anchor.DeviceInfoDecodersAgree` | gateway/zzz.py:28-42 | on any input of 29 bytes or more, the `zzz.py` decoder gives the same id and words as the exact-length `xxx.py` decoder on the first 29 bytes, `is_bridge` is bit 7 of those flags, and `extra_data` is empty iff there are exactly 29 bytes |
| `Anchor.DeviceRecordRoundTrip` | gateway/xxx.py:29-34 | a written device-info block reads back to its node id (through its hex), its five words in order and its flags |
| `Anchor.DecodePersistedPosition` | gateway/zzz.py:46-56 | error iff not exactly 13 bytes; x, y, z are signed 32-bit; quality is byte 12 |
| `Anchor.PersistedPositionRoundTrip` | gateway/zzz.py:51-54 | signed x, y, z millimetres and a quality written little-endian read back unscaled |
| `Anchor.DecodeMacStats` | gateway/zzz.py:58-65 | error iff not exactly 4 bytes; the value is the unsigned word whose little-endian bytes are the input |
| `Anchor.DecodeClusterInfo` | gateway/zzz.py:67-76 | error iff not exactly 5 bytes; the seat is byte 0; both maps are 16-bit |
| `Anchor.ClusterInfoRoundTrip` | gateway/zzz.py:72-74 | a written seat and two 16-bit maps read back unchanged |
| `Anchor.AnchorIds` | gateway/zzz.py:83 | `range(1, min(2*count+1, 33), 2)` yields `min(count, 16)` ids, all inside the 33 bytes |
| `Anchor.DecodeAnchorList` | gateway/zzz.py:78-88 | error iff not exactly 33 bytes; `min(count, 16)` ids; id k is the hex of bytes `1+2k..3+2k` in wire order |
| `Anchor.AnchorIdsReadBack` | gateway/zzz.py:83-86 | every listed id reads back through `bytes.fromhex` to the two bytes on the wire |
| `Anchor.AnchorListCapped` | gateway/zzz.py:82-83 | a count above 16 still yields exactly 16 ids |
| `Anchor.RawHexReadsBack` | gateway/zzz.py:87 | on success, every decoder's `raw_hex` reads back to the whole input |
| `Anchor.DecoderFor` | gateway/zzz.py:90-97 | a decoder found for a UUID is the one the `CHARACTERISTICS` table lists under that UUID |
| `Anchor.DecoderForUuidOf` | gateway/zzz.py:5-12 | every characteristic in the table is routed to its own decoder |
| `Anchor.ReadAndDecode` | gateway/zzz.py:109-125 | the read fails iff the device does not offer the UUID; a decoded result is the table's decoder for that UUID applied to the value read |
| `Anchor.AsWrittenUuidMalformed` | gateway/zzz.py:8 | the persisted-position UUID as spelled is not a UUID (its second character is 'o'); the firmware's `f0f26c9b-…` is |
| `Anchor.AsWrittenPersistedPositionUnreadable` | gateway/zzz.py:93 | as written, reading persisted position always fails, so its decoder is never reached; the other five still decode |
| `Anchor.CorrectedEveryCharacteristicDecodes` | gateway/zzz.py:117-120 | with the published UUID, every offered characteristic reaches its own decoder |
| `ProxyPositions.Entries` | gateway/proxy.py:20-40 | the loop yields `min(count, whole 15-byte entries left)` entries |
| `ProxyPositions.EntriesAt` | gateway/proxy.py:24-35 | entry j starts at `offset + 15j`: the offset advances by exactly 15 per entry |
| `ProxyPositions.ParseProxyPositions` | gateway/proxy.py:12-42 | empty input raises (and is caught); otherwise `min(data[0], (len-1) div 15)` entries |
| `ProxyPositions.ProxyEntryLayout` | gateway/proxy.py:22-34 | entry i is the 16-bit node id at `1+15i`, then x, y, z in metres and the quality |
| `ProxyPositions.IncompleteExactlyWhenShort` | gateway/proxy.py:38-40 | fewer entries than declared are decoded exactly when the frame is shorter than `1 + 15*count` |
| `ProxyPositions.ProxyRoundTrip` | gateway/proxy.py:21-37 | an encoded notification parses back to every entry, in order, in metres |
| `UpdateRate.EncodeUpdateRate` | gateway/rate-set.py:39-41 | fails iff a value lies outside [0, 2^32), naming the first such value; otherwise 8 bytes whose halves read as u1 then u2 |
| `UpdateRate.DecodeUpdateRate` | gateway/update_rate.py:22-23 | fails iff the length is not 8; both values are 32-bit unsigned |
| `UpdateRate.RateRoundTrip` | gateway/rate-set.py:50-51 | reading back a written payload gives (u1, u2), moving first |
| `UpdateRate.PayloadRoundTrip` | gateway/update_rate.py:23 | every 8-byte payload is the encoding of what it decodes to |
| `UpdateRate.ExamplePayload` | gateway/rate-set.py:59 | (100, 1000) is written as `64 00 00 00 e8 03 00 00` |
| `UpdateRate.ExampleHex` | gateway/rate-set.py:43 | that payload prints as `64000000e8030000` |
| `TagPolicy.ProcessLocationData` | gateway/test_all.py:55-64 | raises iff the frame is empty or is mode 0 with fewer than 14 bytes; position present iff mode 0; x, y, z are unsigned 32-bit and qf is byte 13 |
| `TagPolicy.UnsignedVersusSigned` | gateway/test_all.py:58-60 | accepts exactly the mode-0 frames `location.py` accepts; each coordinate is the two's-complement reading of the millimetres `location.py` reports |
| `TagPolicy.EncodedPositionReadsUnsigned` | gateway/test_all.py:57-62 | a position sent by a tag reads back with every negative coordinate offset by 2^32 |
| `TagPolicy.HandleNotify` | gateway/test_all.py:124-149 | a frame that raises changes nothing; otherwise `last_position` becomes the new position, and a post happens iff the interval for the movement verdict has elapsed; a post moves `last_send_time` to now, otherwise it stays |
| `TagPolicy.PostSpacing` | gateway/test_all.py:140-149 | over any sequence of notifications, each post is at least its interval after the previous post, or after the starting `last_send_time` |
| `TagPolicy.LastSendTimeIsLastPost` | gateway/test_all.py:149 | `last_send_time` ends as the time of the last post, and is unchanged when nothing was posted |
| `TagPolicy.ConsecutivePosts` | gateway/test_all.py:118-122 | from the initial state, consecutive posts are at least 1 s apart, and at least 10 s apart when the later one was stationary |
| `TagPolicy.PositionlessFrameResetsMovement` | gateway/test_all.py:132-137 | a frame without a position clears `last_position`, so the next post is stationary and waits 10 s |
| `TagPolicy.ZeroCrossingCountsAsMoving` | gateway/test_all.py:133-136 | positions 1 mm either side of x = 0 are 0.002 m apart signed, yet the unsigned rule judges the tag moving and posts after 1 s |
| `Registry.ScanTargets` | gateway/test_all.py:71-74 | a MAC is a scan target iff it was discovered and the registry holds it with status 'active' |
| `Registry.ScanTargetsInOrder` | gateway/test_all.py:69-74 | the targets keep discovery order: they are a subsequence of the discovered MACs |
| `Registry.AnchorsToCheck` | gateway/test_all.py:158-160 | a MAC is checked iff it is registered with type 'anchor' and status 'active' |
| `Registry.Suffix` | gateway/test_all.py:181 | `mac[-6:]`: the last six characters, or the whole of a shorter string |
| `Registry.AddModule` | gateway/test_all.py:176-186 | a present MAC is a no-op; otherwise it fails iff `bytes.fromhex` fails or yields no byte; on success only that key is added, active, with its id, name `Module_` followed by `Suffix(mac, 6)` (`mac[-6:]`), and type from bit 7 |
| `Registry.DeleteModule` | gateway/test_all.py:212-216 | removes that key only; an absent key is a no-op |
| `Registry.DeleteUndoesAdd` | gateway/test_all.py:212-215 | deleting a MAC just added restores the registry |
| `Registry.AddIdempotent` | gateway/test_all.py:178 | a second add of the same MAC changes nothing, whatever operation mode it carries |
| `Registry.AddedAnchorIsWatched` | gateway/test_all.py:183 | an anchor added with `encode_operation_mode('anchor').hex()` is a target of the next scan and of the anchor check, and its deletion removes it from both |
| `Registry.RecordAsWritten` | gateway/test_all.py:104-105 | `save_modules(load_modules())` writes back the registry it just reloaded, so whenever the edit changes the record the saved file differs from the registry with the edit recorded (`Record`); every record, the edited one included, stays as stored |
| `Registry.Record` | gateway/test_all.py:103-104 | the intended save: the edited record is stored, every other record is unchanged |
| `Registry.AsWrittenEditLost` | gateway/test_all.py:103-113 | as written, a registered active module whose connection failed is still scanned on every discovery, and a module whose stored type is not 'anchor' stays out of the anchor check even after a connection learns that it is an anchor |
| `Registry.RecordedEditTakesEffect` | gateway/test_all.py:169-173 | with the edit saved, a disabled module leaves the scan targets and a learnt anchor joins the anchor check, which changes by exactly that MAC |
| `SampleWindow.Handle` | gateway/yyy.py:78-92 | a falsy decode leaves the buffers unchanged; the four buffers stay aligned and hold at most five values; an accepted sample grows them by one until five |
| `SampleWindow.HandleSlides` | gateway/yyy.py:87-92 | one accepted sample slides the window of the last five by one |
| `SampleWindow.WindowHoldsLastFive` | gateway/yyy.py:82-92 | after any run of notifications the buffers are aligned and hold exactly the last `min(n, 5)` accepted samples, oldest first |
| `SampleWindow.Tick` | gateway/yyy.py:99-103 | averages are formed iff at least five samples are buffered; the quality average is the floor of sum/5, and the X, Y and Z averages are each buffer's sum/5 |
| `SampleWindow.TickAfterRun` | gateway/yyy.py:97-119 | a tick posts iff five samples have been accepted; the X, Y and Z averages are the sums of the last five accepted samples over 5 and the quality is the floor of theirs; the tick never changes the buffers and repeats the same record until a new sample arrives |
| `SampleWindow.FalsyIgnored` | gateway/yyy.py:79-80 | a falsy decode anywhere in the stream changes neither the buffers nor the accepted samples |

## Left out

- Bluetooth scanning, connecting, reads, writes, notifications and MTU requests are foreign library I/O. A value read is a parameter; the set of UUIDs a device offers is a parameter of `Anchor.ReadAndDecode`.
- HTTP posts, socket.io emits and the server responses are network I/O. A post is an event in `TagPolicy.HandleNotify`'s result, and `SampleWindow.Tick` returns the record it would send.
- Reading and writing `module.json` and `md.json`, and the log files of `test.py`, are file I/O. The registry is an in-memory map, and loading and saving are the identity.
- The asyncio loops, the task gathering, the sleeps and the reconnect loops of `main.py`, `test.py` and `mmm.py` hold no state worth verifying. The once-a-second loop of `yyy.py` is one `SampleWindow.Tick` per pass.
- `update_module` in `test_all.py` is not modelled. It only writes to a device and then saves a registry edit that may or may not happen.
- The Bluetooth calls of `check_single_anchor` and `connect_and_collect_data` are not modelled. Their effect on the registry is the `Registry.Edit` they make.
- Floating point is left out:
  - The float32 values of `mmm.py` are kept as their four wire bytes, and their `.2f` formatting is not modelled.
  - `moving-test.py` is left out entirely.
  - The seconds printout of `update_rate.py` is not modelled.
- The `mm / 1000` results of `location.py` and `proxy.py` are exact reals, not binary doubles.
- SampleWindow.Tick: the X, Y and Z averages are exact real quotients, not float sums, because floating point is not modelled.
- SampleWindow.Handle: the decoder `yyy.py` calls is not part of this model. A decoded sample is an abstract value with an integer quality, and a falsy result is `None`.
- `mode0.py` is a single one-byte write and `t_api.py` posts fake data, so neither has logic to model.
- TagPolicy.HandleNotify: the clock reading `time.time()` is a parameter. Clock readings are not assumed to increase.

## Findings

| source | as written | input that shows it | evidently intended | confidence | as-written member | corrected member |
|---|---|---|---|---|---|---|
| gateway/main.py:47-48 | a type-1 frame is passed whole to `decode_location_mode_1`, so the type byte 1 is read as the entry count (`test.py` repeats this at lines 49-50) | a type-1 frame `01 02` followed by two 7-byte entries is reported with count 1 and a single entry built from the count byte and six bytes of the first entry | read the ranging list from `data[1:]`, as `mmm.py` does at line 60 | not executed | `RawFrames.Type1CountIsTypeByte` | `RawFrames.CorrectedType1RoundTrip` |
| gateway/zzz.py:8 | the persisted-position UUID is spelled `fof26c9b-…`, with the letter o, in both the table and `DECODERS` (line 93) | any device: no device can offer a malformed UUID, so the read always fails and `decode_persisted_position` is never called | `f0f26c9b-2c8c-49ac-ab60-fe03def1b40c`, the DWM1001 persisted-position UUID | not executed | `Anchor.AsWrittenPersistedPositionUnreadable` | `Anchor.CorrectedEveryCharacteristicDecodes` |
| gateway/test_all.py:104-105 | `module['type'] = …` followed by `save_modules(load_modules())` saves the freshly reloaded registry, which drops the edit (also at lines 112-113 and 169-173) | a registered active module whose connection fails is never stored as 'disable', so every later scan connects to it again; a type learnt on connection is never stored either, which matters when it differs from the type `add_module` stored (the operation-mode write failed, or the file was edited by hand): such an anchor is never covered by the anchor check | save the registry with the edit applied, as the comment at line 103 says | not executed | `Registry.AsWrittenEditLost` | `Registry.RecordedEditTakesEffect` |
