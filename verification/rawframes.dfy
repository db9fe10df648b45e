/**
  The polling gateway's frame decoder `decode_raw_data` (gateway/main.py,
  repeated verbatim in gateway/test.py): dispatch on the type byte
  `data[0]`, always report that byte under "type", and turn every exception
  of a sub-decoder into `None`.
 */
module RawFrames {
  import opened Wrappers
  import opened Bytes
  import opened Location

  /** `{"type": t}`. */
  function Typed(t: byte): (r: Fields)
    ensures Keys(r) == {TypeKey}
  {
    NoFields.(frameType := Some(t))
  }

  /**
    `decode_raw_data` as written: type 2 is mode 2 of the whole frame, type 1
    is mode 1 of the WHOLE frame (so its count byte is the type byte), type 0
    needs more than 13 bytes, and any other type gives the type alone.
   */
  function DecodeRawData(data: seq<byte>): (r: Option<Fields>)
    ensures data == [] ==> r == None
    ensures r.Some? ==> data != [] && r.value.frameType == Some(data[0])
    ensures data != [] && data[0] > 2 ==> r == Some(Typed(data[0]))
    ensures data != [] && data[0] == 0 ==> (r.Some? <==> |data| >= 14)
    ensures data != [] && data[0] == 1 ==> (r.Some? <==> |data| >= 8)
    ensures data != [] && data[0] == 2 ==> (r.Some? <==> |data| >= 15 && 15 + 7 * data[14] <= |data|)
  {
    if data == [] then None
    else
      DecodeMode2Layout(data);
      var t := data[0];
      var decoded :=
        if t == 2 then DecodeMode2(data)
        else if t == 1 then DecodeMode1(data)
        else if t == 0 then (if |data| <= 13 then Failure(TooShort(14, |data|)) else DecodeMode0(data))
        else Success(NoFields);
      match decoded
      case Failure(_) => None
      case Success(f) => Some(Update(Typed(t), f))
  }

  /** A type-0 frame of 14 bytes or more gives the type, the mode byte (also 0) and the position. */
  lemma RawType0Fields(data: seq<byte>)
    requires |data| >= 14 && data[0] == 0
    ensures DecodeRawData(data) == Some(NoFields.(frameType := Some(0), mode := Some(0), position := Some(PositionAt(data, 1))))
  {
  }

  /**
    A type-1 frame is read with the type byte as its count: exactly one
    ranging entry, from bytes 1 to 7, whatever byte 1 declares.
   */
  lemma RawType1SingleEntry(data: seq<byte>)
    requires |data| >= 8 && data[0] == 1
    ensures DecodeRawData(data) == Some(NoFields.(frameType := Some(1), count := Some(1), distances := Some([DistanceAt(data, 1)])))
  {
    var ds := DecodeMode1(data).value.distances.value;
    assert ds == [DistanceAt(data, 1)];
  }

  /** A type-2 frame gives the type plus everything mode 2 decodes; "type" and "Mode:" agree. */
  lemma RawType2Fields(data: seq<byte>)
    requires |data| >= 15 && data[0] == 2 && 15 + 7 * data[14] <= |data|
    ensures DecodeRawData(data).Some?
    ensures Keys(DecodeRawData(data).value) == {TypeKey, ModeKey, PositionKey, CountKey, DistancesKey}
    ensures DecodeRawData(data).value.mode == Some(2)
    ensures DecodeRawData(data).value.position == Some(PositionAt(data, 1))
    ensures DecodeRawData(data).value.count == Some(data[14])
    ensures DecodeRawData(data) == Some(Update(Typed(2), DecodeMode2(data).value))
  {
    DecodeMode2Layout(data);
  }

  /** The captured 43-byte frame decodes through the polling path with all five keys. */
  lemma RawFullCapture()
    ensures DecodeRawData(FULL_CAPTURE).Some?
    ensures DecodeRawData(FULL_CAPTURE).value.position == Some(Position(0.707, 0.542, 1.129, 56))
    ensures DecodeRawData(FULL_CAPTURE).value.count == Some(4)
  {
    var f := FULL_CAPTURE;
    assert |f| == 43 && f[0] == 2 && f[14] == 4;
    RawType2Fields(f);
    FullCapturePosition();
  }

  // ---------------------------------------------------------------- corrected type 1

  /**
    The evidently intended decoder: a type-1 frame is the type byte followed
    by a mode-1 block, so the ranging list is read from `data[1:]`, as the
    truncating decoder in gateway/mmm.py does. Every other type is unchanged.
   */
  function DecodeRawDataCorrected(data: seq<byte>): (r: Option<Fields>)
    ensures data != [] && data[0] != 1 ==> r == DecodeRawData(data)
    ensures data != [] && data[0] == 1 ==> (r.Some? <==> |data| >= 2 && 2 + 7 * data[1] <= |data|)
    ensures data != [] && data[0] == 1 && r.Some? ==> r.value.count == Some(data[1])
  {
    if data != [] && data[0] == 1 then
      var tail := Drop(data, 1);
      assert tail != [] ==> tail[0] == data[1];
      match DecodeMode1(tail)
      case Failure(_) => None
      case Success(f) => Some(Update(Typed(1), f))
    else DecodeRawData(data)
  }

  /** The frame a tag sends in mode 1: type byte 1, then the count and the entries. */
  function Type1Frame(ds: seq<RawDistance>): (r: seq<byte>)
    requires |ds| < 256
    requires forall i :: 0 <= i < |ds| ==> ValidDistance(ds[i])
    ensures |r| == 2 + 7 * |ds| && r[0] == 1 && r[1] == |ds|
  {
    [1] + EncodeMode1(ds)
  }

  /** The corrected decoder gives back every entry of a type-1 frame, and its count. */
  lemma CorrectedType1RoundTrip(ds: seq<RawDistance>)
    requires |ds| < 256
    requires forall i :: 0 <= i < |ds| ==> ValidDistance(ds[i])
    ensures DecodeRawDataCorrected(Type1Frame(ds)) ==
      Some(NoFields.(frameType := Some(1), count := Some(|ds|),
                     distances := Some(seq(|ds|, i requires 0 <= i < |ds| => DistanceInMetres(ds[i])))))
  {
    var frame := Type1Frame(ds);
    assert Drop(frame, 1) == EncodeMode1(ds);
    Mode1RoundTrip(ds);
  }

  /**
    As written, a type-1 frame with two or more entries is reported with a
    count of 1 and a single entry, which is built from the real count byte
    and the first six bytes of the first entry.
   */
  lemma Type1CountIsTypeByte(ds: seq<RawDistance>)
    requires 2 <= |ds| < 256
    requires forall i :: 0 <= i < |ds| ==> ValidDistance(ds[i])
    ensures DecodeRawData(Type1Frame(ds)).Some?
    ensures DecodeRawData(Type1Frame(ds)).value.count == Some(1)
    ensures |DecodeRawData(Type1Frame(ds)).value.distances.value| == 1
    ensures DecodeRawDataCorrected(Type1Frame(ds)).value.count == Some(|ds|)
  {
    var frame := Type1Frame(ds);
    RawType1SingleEntry(frame);
    CorrectedType1RoundTrip(ds);
  }
}
