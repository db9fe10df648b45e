/**
  gateway/notify.py: the location decoder chosen by an explicit mode
  argument, and the notification callback that always passes mode 2.
 */
module Notify {
  import opened Wrappers
  import opened Bytes
  import opened Location

  /**
    `decode_location_data(mode, data)`: `None` for a mode other than 0, 1, 2;
    otherwise the matching decoder's dict, or the exception it raises.
   */
  function DecodeLocationData(mode: int, data: seq<byte>): (r: Result<Option<Fields>>)
    ensures r == Success(None) <==> mode !in {0, 1, 2}
    ensures r.Failure? ==> mode in {0, 1, 2}
    ensures r.Success? && mode == 0 ==> Keys(r.value.value) == {ModeKey, PositionKey}
    ensures r.Success? && mode == 1 ==> Keys(r.value.value) == {CountKey, DistancesKey}
    ensures mode == 0 ==> (r.Success? <==> |data| >= 14)
    ensures mode == 1 ==> (r.Success? <==> data != [] && 1 + 7 * data[0] <= |data|)
    ensures mode == 2 ==> (r.Success? <==> |data| >= 15 && 15 + 7 * data[14] <= |data|)
    ensures mode == 0 ==> (r.Success? <==> DecodeMode0(data).Success?) && (r.Success? ==> r.value == Some(DecodeMode0(data).value))
    ensures mode == 1 ==> (r.Success? <==> DecodeMode1(data).Success?) && (r.Success? ==> r.value == Some(DecodeMode1(data).value))
    ensures mode == 2 ==> (r.Success? <==> DecodeMode2(data).Success?) && (r.Success? ==> r.value == Some(DecodeMode2(data).value))
  {
    DecodeMode2Layout(data);
    var decoded :=
      if mode == 0 then DecodeMode0(data)
      else if mode == 1 then DecodeMode1(data)
      else if mode == 2 then DecodeMode2(data)
      else Success(NoFields);
    match decoded
    case Failure(e) => Failure(e)
    case Success(f) => if mode in {0, 1, 2} then Success(Some(f)) else Success(None)
  }

  /** A mode-2 decode that succeeds carries all four keys, whatever the frame's own first byte says. */
  lemma Mode2Keys(data: seq<byte>)
    requires DecodeLocationData(2, data).Success?
    ensures Keys(DecodeLocationData(2, data).value.value) == {ModeKey, PositionKey, CountKey, DistancesKey}
    ensures DecodeLocationData(2, data).value.value.mode == Some(data[0])
  {
    DecodeMode2Layout(data);
  }

  /**
    The decoder follows the `mode` argument, not `data[0]`: the captured
    mode-2 frame decodes as a position when mode 0 is passed, and its
    "Mode:" entry still reports 2.
   */
  lemma ModeArgumentDecides()
    ensures DecodeLocationData(0, FULL_CAPTURE) == Success(Some(NoFields.(mode := Some(2), position := Some(Position(0.707, 0.542, 1.129, 56)))))
  {
    FullCapturePosition();
  }

  /** `notification_handler`: every notification is decoded as mode 2. */
  function NotificationHandler(data: seq<byte>): (r: Result<Option<Fields>>)
    ensures r.Success? <==> |data| >= 15 && 15 + 7 * data[14] <= |data|
    ensures r.Success? ==> r.value.Some? && Keys(r.value.value) == {ModeKey, PositionKey, CountKey, DistancesKey}
    ensures r.Success? <==> DecodeMode2(data).Success?
    ensures r.Success? ==> r.value == Some(DecodeMode2(data).value)
  {
    DecodeMode2Layout(data);
    DecodeLocationData(2, data)
  }

  /** A mode-0 notification (14 bytes) therefore always raises in the handler, even though mode 0 would accept it. */
  lemma HandlerRejectsPositionFrames(data: seq<byte>)
    requires |data| == 14
    ensures NotificationHandler(data).Failure?
    ensures DecodeLocationData(0, data).Success?
  {
  }
}
