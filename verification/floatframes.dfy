/**
  The float32 variant of the location frame decoder (gateway/mmm.py).

  Here coordinates and distances are IEEE single-precision floats rather than
  millimetre integers. Their values are only ever formatted to text, so each
  is kept as its four wire bytes. Unlike gateway/location.py, the ranging
  list is parsed leniently: it stops at the first entry that does not fit,
  and still reports the declared count.
 */
module FloatFrames {
  import opened Wrappers
  import opened Bytes
  import Location

  /** `{"position": {"x": .., "y": ..}, "position_quality": q}`: z is unpacked but never reported. */
  datatype PositionReport = PositionReport(x: seq<byte>, y: seq<byte>, quality: byte)

  /** One `{"node_id", "distance", "quality"}` entry; the distance stays as float32 bytes. */
  datatype RangeReport = RangeReport(nodeId: nat, distance: seq<byte>, quality: byte)

  /** The merged dict `decode_raw_data` returns: "position"/"position_quality", "distance_count", "distances". */
  datatype Report = Report(
    position: Option<PositionReport>,
    distanceCount: Option<byte>,
    distances: Option<seq<RangeReport>>)

  /** `parse_position_data`: `struct.unpack('<fff', data[1:13])`, then `data[13]`. */
  function ParsePositionData(data: seq<byte>): (r: Result<PositionReport>)
    ensures r.Success? <==> |data| >= 14
    ensures |data| == 13 ==> r == Failure(IndexOutOfRange)
    ensures r.Success? ==> |r.value.x| == 4 && |r.value.y| == 4 && r.value.quality == data[13]
    ensures r.Success? ==> r.value.x == data[1 .. 5] && r.value.y == data[5 .. 9]
  {
    var block := Slice(data, 1, 13);
    if |block| != 12 then Failure(BufferSize(12, |block|))
    else if |data| <= 13 then Failure(IndexOutOfRange)
    else Success(PositionReport(data[1 .. 5], data[5 .. 9], data[13]))
  }

  /** The z bytes (9 to 12) never reach the report. */
  lemma PositionIgnoresZ(data: seq<byte>, z: seq<byte>)
    requires |data| >= 14 && |z| == 4
    ensures ParsePositionData(data[..9] + z + data[13..]) == ParsePositionData(data)
  {
    var d := data[..9] + z + data[13..];
    assert |d| == |data|;
    assert d[1 .. 5] == data[1 .. 5];
    assert d[5 .. 9] == data[5 .. 9];
    assert d[13] == data[13];
  }

  function RangeAt(data: seq<byte>, off: nat): RangeReport
    requires off + 7 <= |data|
  {
    RangeReport(U16LE(data[off .. off + 2]), data[off + 2 .. off + 6], data[off + 6])
  }

  /** The loop of `parse_distance_data` with `remaining` iterations left, at `off`. */
  function Entries(data: seq<byte>, off: nat, remaining: nat): (r: seq<RangeReport>)
    ensures |r| == Min(remaining, Fit(|data|, off, 7))
    decreases remaining
  {
    if remaining == 0 || off + 7 > |data| then []
    else
      assert Fit(|data|, off + 7, 7) == Fit(|data|, off, 7) - 1;
      [RangeAt(data, off)] + Entries(data, off + 7, remaining - 1)
  }

  /** Entry `j` comes from the seven bytes at `off + 7 j`. */
  lemma {:induction false} EntriesLayout(data: seq<byte>, off: nat, remaining: nat)
    ensures forall j :: 0 <= j < |Entries(data, off, remaining)| ==>
      off + 7 * j + 7 <= |data| && Entries(data, off, remaining)[j] == RangeAt(data, off + 7 * j)
    decreases remaining
  {
    if remaining > 0 && off + 7 <= |data| {
      var r := Entries(data, off, remaining);
      var rest := Entries(data, off + 7, remaining - 1);
      EntriesLayout(data, off + 7, remaining - 1);
      assert r == [RangeAt(data, off)] + rest;
      forall j | 1 <= j < |r|
        ensures off + 7 * j + 7 <= |data| && r[j] == RangeAt(data, off + 7 * j)
      {
        var k := j - 1;
        assert off + 7 + 7 * k == off + 7 * j;
        assert r[j] == rest[k];
      }
    }
  }

  /**
    `parse_distance_data(data, offset)`: the declared count `data[offset]` and
    as many entries as both the count and the remaining bytes allow.
   */
  function ParseDistanceData(data: seq<byte>, offset: nat): (r: Result<(byte, seq<RangeReport>)>)
    ensures r.Success? <==> offset < |data|
    ensures r.Failure? ==> r.error == IndexOutOfRange
    ensures r.Success? ==> r.value.0 == data[offset]
    ensures r.Success? ==> |r.value.1| == Min(data[offset], (|data| - offset - 1) / 7)
  {
    if offset >= |data| then Failure(IndexOutOfRange)
    else Success((data[offset], Entries(data, offset + 1, data[offset])))
  }

  /** Entry `i` of a parsed list has the node id at `offset + 1 + 7 i` and the quality at `offset + 7 + 7 i`. */
  lemma DistanceEntryLayout(data: seq<byte>, offset: nat, i: nat)
    requires ParseDistanceData(data, offset).Success?
    requires i < |ParseDistanceData(data, offset).value.1|
    ensures offset + 8 + 7 * i <= |data|
    ensures ParseDistanceData(data, offset).value.1[i].nodeId == U16LE(data[offset + 1 + 7 * i .. offset + 3 + 7 * i])
    ensures ParseDistanceData(data, offset).value.1[i].quality == data[offset + 7 + 7 * i]
  {
    EntriesLayout(data, offset + 1, data[offset]);
  }

  /**
    Against the strict decoder of gateway/location.py: where that one succeeds
    this one decodes the same count, node ids and qualities; where that one
    raises on a short list this one returns fewer entries than declared.
   */
  lemma TruncatingVersusStrict(data: seq<byte>)
    requires data != []
    ensures ParseDistanceData(data, 0).Success?
    ensures Location.DecodeMode1(data).Success? ==>
      var ours := ParseDistanceData(data, 0).value.1;
      var theirs := Location.DecodeMode1(data).value.distances.value;
      && |ours| == |theirs| == data[0]
      && forall j :: 0 <= j < |ours| ==> ours[j].nodeId == theirs[j].nodeId && ours[j].quality == theirs[j].quality
    ensures Location.DecodeMode1(data).Failure? ==> |ParseDistanceData(data, 0).value.1| < data[0]
  {
    var ours := ParseDistanceData(data, 0).value.1;
    EntriesLayout(data, 1, data[0]);
  }

  /**
    `decode_raw_data`: type 2 is the position merged with the list at offset
    14, type 1 the list at offset 1, type 0 the position alone; any other
    type, and any exception, is `None`.
   */
  function DecodeRawData(data: seq<byte>): (r: Option<Report>)
    ensures data == [] || data[0] > 2 ==> r == None
    ensures data != [] && data[0] == 0 ==> (r.Some? <==> |data| >= 14)
    ensures data != [] && data[0] == 1 ==> (r.Some? <==> |data| >= 2)
    ensures data != [] && data[0] == 2 ==> (r.Some? <==> |data| >= 15)
    ensures r.Some? ==> (r.value.position.Some? <==> data[0] != 1)
    ensures r.Some? ==> (r.value.distances.Some? <==> data[0] != 0)
    ensures r.Some? && data[0] == 1 ==> r.value.distanceCount == Some(data[1])
    ensures r.Some? && data[0] == 2 ==> r.value.distanceCount == Some(data[14])
    ensures r.Some? && data[0] != 1 ==> r.value.position == Some(ParsePositionData(data).value)
    ensures r.Some? && data[0] == 1 ==> r.value.distances == Some(ParseDistanceData(data, 1).value.1)
    ensures r.Some? && data[0] == 2 ==> r.value.distances == Some(ParseDistanceData(data, 14).value.1)
  {
    if data == [] then None
    else if data[0] == 2 then
      match (ParsePositionData(data), ParseDistanceData(data, 14))
      case (Success(p), Success(d)) => Some(Report(Some(p), Some(d.0), Some(d.1)))
      case _ => None
    else if data[0] == 1 then
      match ParseDistanceData(data, 1)
      case Success(d) => Some(Report(None, Some(d.0), Some(d.1)))
      case Failure(_) => None
    else if data[0] == 0 then
      match ParsePositionData(data)
      case Success(p) => Some(Report(Some(p), None, None))
      case Failure(_) => None
    else None
  }

  /**
    A mode-2 frame that the strict decoder rejects because its list is short
    still decodes here, with the declared count and fewer entries: the
    16-byte capture gives count 4 and no entries.
   */
  lemma ShortCaptureTruncated()
    ensures DecodeRawData(Location.SHORT_CAPTURE).Some?
    ensures DecodeRawData(Location.SHORT_CAPTURE).value.distanceCount == Some(4)
    ensures DecodeRawData(Location.SHORT_CAPTURE).value.distances == Some([])
    ensures Location.DecodeMode2(Location.SHORT_CAPTURE).Failure?
  {
    var f := Location.SHORT_CAPTURE;
    assert |f| == 16 && f[0] == 2 && f[14] == 4;
    Location.ShortCaptureFails();
  }
}
