/**
  The anchor-specific characteristics of the DWM1001 and their decoders
  (gateway/zzz.py), with the exact-length device-info decoder of
  gateway/xxx.py beside them.

  Every zzz.py decoder checks the length first and returns an `"error"`
  dict when it is wrong; otherwise its dict carries the fields and the
  whole input as `raw_hex`. The error dicts are `Failure`s here.
 */
module Anchor {
  import opened Wrappers
  import opened Bytes
  import opened Text

  // ---------------------------------------------------------------- operation mode

  datatype InitiatorReport = InitiatorReport(initiatorEnable: bool, rawHex: string)

  /** zzz.py `decode_operation_mode`: at least 2 bytes; only byte 1 bit 7 is read. */
  function DecodeOperationMode(data: seq<byte>): (r: Result<InitiatorReport>)
    ensures r.Success? <==> |data| >= 2
    ensures r.Failure? ==> r.error == TooShort(2, |data|)
    ensures r.Success? ==> (r.value.initiatorEnable <==> data[1] >= 128) && r.value.rawHex == Hex(data)
  {
    if |data| < 2 then Failure(TooShort(2, |data|))
    else Success(InitiatorReport(data[1] >= 128, Hex(data)))
  }

  // ---------------------------------------------------------------- device info

  datatype DeviceInfo = DeviceInfo(
    nodeId: string,
    hwVersion: nat,
    fw1Version: nat,
    fw2Version: nat,
    fw1Checksum: nat,
    fw2Checksum: nat,
    isBridge: bool,
    extraData: string,
    rawHex: string)

  /** zzz.py `decode_device_info`: at least 29 bytes; anything after byte 28 comes back as `extra_data`. */
  function DecodeDeviceInfo(data: seq<byte>): (r: Result<DeviceInfo>)
    ensures r.Success? <==> |data| >= 29
    ensures r.Failure? ==> r.error == TooShort(29, |data|)
    ensures r.Success? ==>
      && |r.value.nodeId| == 16
      && IsUInt32(r.value.hwVersion) && IsUInt32(r.value.fw1Version) && IsUInt32(r.value.fw2Version)
      && IsUInt32(r.value.fw1Checksum) && IsUInt32(r.value.fw2Checksum)
      && (r.value.isBridge <==> data[28] >= 128)
      && r.value.extraData == Hex(data[29..])
      && (|data| == 29 <==> r.value.extraData == "")
      && r.value.rawHex == Hex(data)
  {
    if |data| < 29 then Failure(TooShort(29, |data|))
    else
      var flags := data[28];
      Success(DeviceInfo(
        Hex(data[0 .. 8]),
        U32LE(data[8 .. 12]), U32LE(data[12 .. 16]), U32LE(data[16 .. 20]),
        U32LE(data[20 .. 24]), U32LE(data[24 .. 28]),
        flags >= 128,
        if |data| > 29 then Hex(data[29..]) else "",
        Hex(data)))
  }

  /** The 29-byte record of gateway/xxx.py: the whole of byte 28 is reported as the operation flags. */
  datatype DeviceRecord = DeviceRecord(
    nodeId: string,
    hwVersion: nat,
    fw1Version: nat,
    fw2Version: nat,
    fw1Checksum: nat,
    fw2Checksum: nat,
    operationFlags: byte)

  /** xxx.py `decode_device_info`: exactly 29 bytes, otherwise `None`. */
  function DecodeDeviceRecord(data: seq<byte>): (r: Option<DeviceRecord>)
    ensures r.Some? <==> |data| == 29
    ensures r.Some? ==>
      && |r.value.nodeId| == 16
      && IsUInt32(r.value.hwVersion) && IsUInt32(r.value.fw1Version) && IsUInt32(r.value.fw2Version)
      && IsUInt32(r.value.fw1Checksum) && IsUInt32(r.value.fw2Checksum)
      && r.value.operationFlags == data[28]
  {
    if |data| != 29 then None
    else Some(DeviceRecord(
      Hex(data[0 .. 8]),
      U32LE(data[8 .. 12]), U32LE(data[12 .. 16]), U32LE(data[16 .. 20]),
      U32LE(data[20 .. 24]), U32LE(data[24 .. 28]),
      data[28]))
  }

  /**
    On its first 29 bytes any accepted input decodes as the exact-length
    record does: the same id and words, and `is_bridge` is bit 7 of the
    operation flags. Longer input only adds `extra_data`.
   */
  lemma DeviceInfoDecodersAgree(data: seq<byte>)
    requires |data| >= 29
    ensures DecodeDeviceInfo(data).Success? && DecodeDeviceRecord(data[..29]).Some?
    ensures
      var z := DecodeDeviceInfo(data).value;
      var x := DecodeDeviceRecord(data[..29]).value;
      && z.nodeId == x.nodeId && z.hwVersion == x.hwVersion
      && z.fw1Version == x.fw1Version && z.fw2Version == x.fw2Version
      && z.fw1Checksum == x.fw1Checksum && z.fw2Checksum == x.fw2Checksum
      && (z.isBridge <==> x.operationFlags >= 128)
      && (z.extraData == "" <==> |data| == 29)
  {
    var h := data[..29];
    assert h[0 .. 8] == data[0 .. 8];
    assert h[8 .. 12] == data[8 .. 12];
    assert h[12 .. 16] == data[12 .. 16];
    assert h[16 .. 20] == data[16 .. 20];
    assert h[20 .. 24] == data[20 .. 24];
    assert h[24 .. 28] == data[24 .. 28];
  }

  /** The device-info block as an anchor writes it. */
  function EncodeDeviceInfo(nodeId: seq<byte>, versions: seq<nat>, flags: byte): (r: seq<byte>)
    requires |nodeId| == 8 && |versions| == 5
    requires forall i :: 0 <= i < 5 ==> IsUInt32(versions[i])
    ensures |r| == 29
  {
    nodeId + LE32(versions[0]) + LE32(versions[1]) + LE32(versions[2]) + LE32(versions[3]) + LE32(versions[4]) + [flags]
  }

  /** Decoding an encoded block gives back the node id (through its hex text), the five words and the flags. */
  lemma DeviceRecordRoundTrip(nodeId: seq<byte>, versions: seq<nat>, flags: byte)
    requires |nodeId| == 8 && |versions| == 5
    requires forall i :: 0 <= i < 5 ==> IsUInt32(versions[i])
    ensures
      var r := DecodeDeviceRecord(EncodeDeviceInfo(nodeId, versions, flags));
      && r.Some?
      && FromHex(r.value.nodeId) == Success(nodeId)
      && r.value.hwVersion == versions[0] && r.value.fw1Version == versions[1] && r.value.fw2Version == versions[2]
      && r.value.fw1Checksum == versions[3] && r.value.fw2Checksum == versions[4]
      && r.value.operationFlags == flags
  {
    var e := EncodeDeviceInfo(nodeId, versions, flags);
    EncodedDeviceInfoLayout(nodeId, versions, flags);
    FromHexOfHex(nodeId);
    var r := DecodeDeviceRecord(e).value;
    assert r == DeviceRecord(Hex(nodeId), versions[0], versions[1], versions[2], versions[3], versions[4], flags);
  }

  lemma EncodedDeviceInfoLayout(nodeId: seq<byte>, versions: seq<nat>, flags: byte)
    requires |nodeId| == 8 && |versions| == 5
    requires forall i :: 0 <= i < 5 ==> IsUInt32(versions[i])
    ensures var e := EncodeDeviceInfo(nodeId, versions, flags);
      && e[0 .. 8] == nodeId
      && U32LE(e[8 .. 12]) == versions[0] && U32LE(e[12 .. 16]) == versions[1]
      && U32LE(e[16 .. 20]) == versions[2] && U32LE(e[20 .. 24]) == versions[3]
      && U32LE(e[24 .. 28]) == versions[4] && e[28] == flags
  {
    var e := EncodeDeviceInfo(nodeId, versions, flags);
    assert e[0 .. 8] == nodeId;
    assert e[8 .. 12] == LE32(versions[0]);
    assert e[12 .. 16] == LE32(versions[1]);
    assert e[16 .. 20] == LE32(versions[2]);
    assert e[20 .. 24] == LE32(versions[3]);
    assert e[24 .. 28] == LE32(versions[4]);
  }

  // ---------------------------------------------------------------- persisted position

  /** Millimetres, unscaled. */
  datatype PersistedPosition = PersistedPosition(x: int, y: int, z: int, quality: byte, rawHex: string)

  /** zzz.py `decode_persisted_position`: exactly 13 bytes of signed x, y, z and a quality byte. */
  function DecodePersistedPosition(data: seq<byte>): (r: Result<PersistedPosition>)
    ensures r.Success? <==> |data| == 13
    ensures r.Failure? ==> r.error == WrongLength(13, |data|)
    ensures r.Success? ==> IsInt32(r.value.x) && IsInt32(r.value.y) && IsInt32(r.value.z)
    ensures r.Success? ==> r.value.quality == data[12] && r.value.rawHex == Hex(data)
  {
    if |data| != 13 then Failure(WrongLength(13, |data|))
    else Success(PersistedPosition(S32LE(data[0 .. 4]), S32LE(data[4 .. 8]), S32LE(data[8 .. 12]), data[12], Hex(data)))
  }

  function EncodePersistedPosition(x: int, y: int, z: int, quality: byte): (r: seq<byte>)
    requires IsInt32(x) && IsInt32(y) && IsInt32(z)
    ensures |r| == 13
  {
    LES32(x) + LES32(y) + LES32(z) + [quality]
  }

  lemma PersistedPositionRoundTrip(x: int, y: int, z: int, quality: byte)
    requires IsInt32(x) && IsInt32(y) && IsInt32(z)
    ensures
      var r := DecodePersistedPosition(EncodePersistedPosition(x, y, z, quality));
      r.Success? && r.value.x == x && r.value.y == y && r.value.z == z && r.value.quality == quality
  {
    var e := EncodePersistedPosition(x, y, z, quality);
    assert e[0 .. 4] == LES32(x);
    assert e[4 .. 8] == LES32(y);
    assert e[8 .. 12] == LES32(z);
  }

  // ---------------------------------------------------------------- MAC stats and cluster info

  datatype MacStats = MacStats(value: nat, rawHex: string)

  /** zzz.py `decode_mac_stats`: exactly 4 bytes, one unsigned little-endian word. */
  function DecodeMacStats(data: seq<byte>): (r: Result<MacStats>)
    ensures r.Success? <==> |data| == 4
    ensures r.Failure? ==> r.error == WrongLength(4, |data|)
    ensures r.Success? ==> IsUInt32(r.value.value) && LE32(r.value.value) == data && r.value.rawHex == Hex(data)
  {
    if |data| != 4 then Failure(WrongLength(4, |data|))
    else
      LE32OfU32LE(data);
      Success(MacStats(U32LE(data), Hex(data)))
  }

  datatype ClusterInfo = ClusterInfo(seat: byte, clusterMap: nat, neighborMap: nat, rawHex: string)

  /** zzz.py `decode_cluster_info`: exactly 5 bytes, the seat then two 16-bit maps. */
  function DecodeClusterInfo(data: seq<byte>): (r: Result<ClusterInfo>)
    ensures r.Success? <==> |data| == 5
    ensures r.Failure? ==> r.error == WrongLength(5, |data|)
    ensures r.Success? ==> r.value.seat == data[0] && r.value.clusterMap < TWO_16 && r.value.neighborMap < TWO_16
    ensures r.Success? ==> r.value.rawHex == Hex(data)
  {
    if |data| != 5 then Failure(WrongLength(5, |data|))
    else Success(ClusterInfo(data[0], U16LE(data[1 .. 3]), U16LE(data[3 .. 5]), Hex(data)))
  }

  function EncodeClusterInfo(seat: byte, clusterMap: nat, neighborMap: nat): (r: seq<byte>)
    requires clusterMap < TWO_16 && neighborMap < TWO_16
    ensures |r| == 5
  {
    [seat] + LE16(clusterMap) + LE16(neighborMap)
  }

  lemma ClusterInfoRoundTrip(seat: byte, clusterMap: nat, neighborMap: nat)
    requires clusterMap < TWO_16 && neighborMap < TWO_16
    ensures
      var r := DecodeClusterInfo(EncodeClusterInfo(seat, clusterMap, neighborMap));
      r.Success? && r.value.seat == seat && r.value.clusterMap == clusterMap && r.value.neighborMap == neighborMap
  {
    var e := EncodeClusterInfo(seat, clusterMap, neighborMap);
    assert e[1 .. 3] == LE16(clusterMap);
    assert e[3 .. 5] == LE16(neighborMap);
  }

  // ---------------------------------------------------------------- anchor list

  datatype AnchorList = AnchorList(count: byte, anchorIds: seq<string>, rawHex: string)

  /** `len(range(i, stop, 2))`. */
  function PairCount(i: nat, stop: nat): nat
  {
    if i < stop then (stop - i + 1) / 2 else 0
  }

  /** `[data[j:j+2].hex() for j in range(i, stop, 2)]`. */
  function IdsFrom(data: seq<byte>, i: nat, stop: nat): (r: seq<string>)
  {
    seq(PairCount(i, stop), k requires 0 <= k < PairCount(i, stop) => Hex(Slice(data, i + 2 * k, i + 2 * k + 2)))
  }

  /** The id list of a 33-byte anchor list: `range(1, min(count * 2 + 1, 33), 2)`. */
  function AnchorIds(data: seq<byte>): (r: seq<string>)
    requires |data| == 33
    ensures |r| == Min(data[0], 16)
    ensures 1 + 2 * |r| <= |data|
  {
    var stop := Min(2 * (data[0] as int) + 1, |data|);
    var ids := IdsFrom(data, 1, stop);
    assert |ids| == stop / 2;
    assert data[0] <= 16 ==> stop == 2 * data[0] + 1 && |ids| == data[0];
    assert data[0] > 16 ==> stop == 33 && |ids| == 16;
    ids
  }

  /** zzz.py `decode_anchor_list`: exactly 33 bytes; `min(count, 16)` two-byte ids after the count. */
  function DecodeAnchorList(data: seq<byte>): (r: Result<AnchorList>)
    ensures r.Success? <==> |data| == 33
    ensures r.Failure? ==> r.error == WrongLength(33, |data|)
    ensures r.Success? ==> r.value.count == data[0] && |r.value.anchorIds| == Min(data[0], 16)
    ensures r.Success? ==> forall k :: 0 <= k < |r.value.anchorIds| ==>
      r.value.anchorIds[k] == Hex(data[1 + 2 * k .. 3 + 2 * k])
    ensures r.Success? ==> r.value.rawHex == Hex(data)
  {
    if |data| != 33 then Failure(WrongLength(33, |data|))
    else
      var ids := AnchorIds(data);
      AnchorIdsLayout(data);
      Success(AnchorList(data[0], ids, Hex(data)))
  }

  lemma AnchorIdsLayout(data: seq<byte>)
    requires |data| == 33
    ensures forall k :: 0 <= k < |AnchorIds(data)| ==> AnchorIds(data)[k] == Hex(data[1 + 2 * k .. 3 + 2 * k])
  {
    var stop := Min(2 * (data[0] as int) + 1, |data|);
    var ids := AnchorIds(data);
    assert ids == IdsFrom(data, 1, stop);
    forall k | 0 <= k < |ids|
      ensures ids[k] == Hex(data[1 + 2 * k .. 3 + 2 * k])
    {
      assert 3 + 2 * k <= |data|;
      assert Slice(data, 1 + 2 * k, 1 + 2 * k + 2) == data[1 + 2 * k .. 3 + 2 * k];
    }
  }

  /** Every listed id reads back, through `bytes.fromhex`, to the two bytes on the wire. */
  lemma AnchorIdsReadBack(data: seq<byte>, k: nat)
    requires DecodeAnchorList(data).Success?
    requires k < |DecodeAnchorList(data).value.anchorIds|
    ensures FromHex(DecodeAnchorList(data).value.anchorIds[k]) == Success(data[1 + 2 * k .. 3 + 2 * k])
  {
    FromHexOfHex(data[1 + 2 * k .. 3 + 2 * k]);
  }

  /** A count above 16 still yields only the 16 ids the 33 bytes can hold. */
  lemma AnchorListCapped(data: seq<byte>)
    requires |data| == 33 && data[0] > 16
    ensures |DecodeAnchorList(data).value.anchorIds| == 16
  {
  }

  /** `raw_hex` always reads back to the whole input. */
  lemma RawHexReadsBack(data: seq<byte>)
    requires DecodeAnchorList(data).Success? || DecodeClusterInfo(data).Success? || DecodeMacStats(data).Success?
      || DecodePersistedPosition(data).Success? || DecodeDeviceInfo(data).Success? || DecodeOperationMode(data).Success?
    ensures DecodeAnchorList(data).Success? ==> FromHex(DecodeAnchorList(data).value.rawHex) == Success(data)
    ensures DecodeClusterInfo(data).Success? ==> FromHex(DecodeClusterInfo(data).value.rawHex) == Success(data)
    ensures DecodeMacStats(data).Success? ==> FromHex(DecodeMacStats(data).value.rawHex) == Success(data)
    ensures DecodePersistedPosition(data).Success? ==> FromHex(DecodePersistedPosition(data).value.rawHex) == Success(data)
    ensures DecodeDeviceInfo(data).Success? ==> FromHex(DecodeDeviceInfo(data).value.rawHex) == Success(data)
    ensures DecodeOperationMode(data).Success? ==> FromHex(DecodeOperationMode(data).value.rawHex) == Success(data)
  {
    FromHexOfHex(data);
  }

  // ---------------------------------------------------------------- characteristics and dispatch

  datatype Characteristic =
    | OperationModeChar | DeviceInfoChar | PersistedPositionChar | MacStatsChar | ClusterInfoChar | AnchorListChar

  datatype Reading =
    | OperationModeReading(operation: InitiatorReport)
    | DeviceInfoReading(info: DeviceInfo)
    | PersistedPositionReading(position: PersistedPosition)
    | MacStatsReading(stats: MacStats)
    | ClusterInfoReading(cluster: ClusterInfo)
    | AnchorListReading(anchors: AnchorList)

  /** The decoder registered for each characteristic, its error dict as a `Failure`. */
  function DecodeAs(c: Characteristic, data: seq<byte>): Result<Reading>
  {
    match c
    case OperationModeChar => (match DecodeOperationMode(data) case Success(v) => Success(OperationModeReading(v)) case Failure(e) => Failure(e))
    case DeviceInfoChar => (match DecodeDeviceInfo(data) case Success(v) => Success(DeviceInfoReading(v)) case Failure(e) => Failure(e))
    case PersistedPositionChar => (match DecodePersistedPosition(data) case Success(v) => Success(PersistedPositionReading(v)) case Failure(e) => Failure(e))
    case MacStatsChar => (match DecodeMacStats(data) case Success(v) => Success(MacStatsReading(v)) case Failure(e) => Failure(e))
    case ClusterInfoChar => (match DecodeClusterInfo(data) case Success(v) => Success(ClusterInfoReading(v)) case Failure(e) => Failure(e))
    case AnchorListChar => (match DecodeAnchorList(data) case Success(v) => Success(AnchorListReading(v)) case Failure(e) => Failure(e))
  }

  const OPERATION_MODE_UUID: string := "3f0afd88-7770-46b0-b5e7-9fc099598964"
  const DEVICE_INFO_UUID: string := "1e63b1eb-d4ed-444e-af54-c1e965192501"
  /** The persisted-position UUID as the script spells it, with the letter o in its second place. */
  const PERSISTED_POSITION_UUID_AS_WRITTEN: string := "fof26c9b-2c8c-49ac-ab60-fe03def1b40c"
  /** The persisted-position UUID the DWM1001 firmware publishes. */
  const PERSISTED_POSITION_UUID: string := "f0f26c9b-2c8c-49ac-ab60-fe03def1b40c"
  const MAC_STATS_UUID: string := "28d01d60-89de-4bfa-b6e9-651ba596232c"
  const CLUSTER_INFO_UUID: string := "17b1613e-98f2-4436-bcde-23af17a10c72"
  const ANCHOR_LIST_UUID: string := "5b10c428-af2f-486f-aee1-9dbd79b6bccb"

  /** The `CHARACTERISTICS` table, with `persisted` as its persisted-position entry. */
  function UuidOf(c: Characteristic, persisted: string): string
  {
    match c
    case OperationModeChar => OPERATION_MODE_UUID
    case DeviceInfoChar => DEVICE_INFO_UUID
    case PersistedPositionChar => persisted
    case MacStatsChar => MAC_STATS_UUID
    case ClusterInfoChar => CLUSTER_INFO_UUID
    case AnchorListChar => ANCHOR_LIST_UUID
  }

  /** A persisted-position entry starting with 'f' collides with no other key of the table. */
  predicate StartsApart(persisted: string)
  {
    persisted != [] && persisted[0] == 'f'
  }

  /** `DECODERS.get(uuid)`, the keys spelled as in `CHARACTERISTICS`. */
  function DecoderFor(uuid: string, persisted: string): (r: Option<Characteristic>)
    ensures r.Some? ==> UuidOf(r.value, persisted) == uuid
  {
    if uuid == OPERATION_MODE_UUID then Some(OperationModeChar)
    else if uuid == DEVICE_INFO_UUID then Some(DeviceInfoChar)
    else if uuid == persisted then Some(PersistedPositionChar)
    else if uuid == MAC_STATS_UUID then Some(MacStatsChar)
    else if uuid == CLUSTER_INFO_UUID then Some(ClusterInfoChar)
    else if uuid == ANCHOR_LIST_UUID then Some(AnchorListChar)
    else None
  }

  /** Every characteristic of the table is routed to its own decoder. */
  lemma DecoderForUuidOf(c: Characteristic, persisted: string)
    requires StartsApart(persisted)
    ensures DecoderFor(UuidOf(c, persisted), persisted) == Some(c)
  {
    assert OPERATION_MODE_UUID[0] == '3' && DEVICE_INFO_UUID[0] == '1' && MAC_STATS_UUID[0] == '2';
    assert CLUSTER_INFO_UUID[0] == '1' && ANCHOR_LIST_UUID[0] == '5';
    assert DEVICE_INFO_UUID[1] == 'e' && CLUSTER_INFO_UUID[1] == '7';
  }

  /** The text form of a 128-bit UUID: 32 hex digits in groups of 8, 4, 4, 4 and 12. */
  predicate IsUuid(s: string)
  {
    && |s| == 36
    && forall i :: 0 <= i < 36 ==>
      if i == 8 || i == 13 || i == 18 || i == 23 then s[i] == '-' else HexValue(s[i]).Some?
  }

  datatype Outcome =
    | ReadFailed                         // the read raised; the loop prints the error and moves on
    | NoDecoder                          // read, but `DECODERS` has no entry for the UUID
    | Decoded(reading: Result<Reading>)  // the decoder's dict, or its error dict

  /**
    One pass of the loop in `read_and_decode_anchor_data`: read `uuid` from a
    device offering the characteristics `offered` (each value given by
    `value`), then decode it with `DECODERS.get(uuid)`.
   */
  function ReadAndDecode(uuid: string, persisted: string, offered: set<string>, value: seq<byte>): (r: Outcome)
    ensures uuid !in offered <==> r == ReadFailed
    ensures r.Decoded? ==> exists c :: UuidOf(c, persisted) == uuid && r.reading == DecodeAs(c, value)
  {
    if uuid !in offered then ReadFailed
    else match DecoderFor(uuid, persisted)
      case None => NoDecoder
      case Some(c) => Decoded(DecodeAs(c, value))
  }

  /** The spelling in the script is not a UUID: its second character is the letter o. */
  lemma AsWrittenUuidMalformed()
    ensures !IsUuid(PERSISTED_POSITION_UUID_AS_WRITTEN)
    ensures IsUuid(PERSISTED_POSITION_UUID)
  {
    assert PERSISTED_POSITION_UUID_AS_WRITTEN[1] == 'o';
  }

  /**
    As written, no device can offer the persisted-position UUID, so its read
    always fails and `decode_persisted_position` is never reached; the other
    five characteristics still reach their decoders.
   */
  lemma AsWrittenPersistedPositionUnreadable(offered: set<string>, value: seq<byte>, c: Characteristic)
    requires forall u :: u in offered ==> IsUuid(u)
    requires forall d :: d != PersistedPositionChar ==> UuidOf(d, PERSISTED_POSITION_UUID_AS_WRITTEN) in offered
    ensures ReadAndDecode(PERSISTED_POSITION_UUID_AS_WRITTEN, PERSISTED_POSITION_UUID_AS_WRITTEN, offered, value) == ReadFailed
    ensures c != PersistedPositionChar ==>
      ReadAndDecode(UuidOf(c, PERSISTED_POSITION_UUID_AS_WRITTEN), PERSISTED_POSITION_UUID_AS_WRITTEN, offered, value) == Decoded(DecodeAs(c, value))
  {
    AsWrittenUuidMalformed();
    DecoderForUuidOf(c, PERSISTED_POSITION_UUID_AS_WRITTEN);
  }

  /** With the published UUID every characteristic a device offers reaches its own decoder. */
  lemma CorrectedEveryCharacteristicDecodes(offered: set<string>, value: seq<byte>, c: Characteristic)
    requires UuidOf(c, PERSISTED_POSITION_UUID) in offered
    ensures ReadAndDecode(UuidOf(c, PERSISTED_POSITION_UUID), PERSISTED_POSITION_UUID, offered, value) == Decoded(DecodeAs(c, value))
  {
    DecoderForUuidOf(c, PERSISTED_POSITION_UUID);
  }
}
