/**
  The tag side of gateway/test_all.py: `process_location_data`, which reads
  a mode-0 position as three unsigned little-endian integers and a quality
  byte, and the `handle_notify` send-rate rule. A tag counts as moving when
  some axis changed by more than 100 between two consecutive positions. A
  location record is posted when at least 1 second (moving) or 10 seconds
  (stationary) have passed since the last post.

  The clock reading `time.time()` is a parameter of each notification, and a
  post is an event in the result; the HTTP request itself is not part of
  this model.
 */
module TagPolicy {
  import opened Wrappers
  import opened Bytes
  import Location

  /** `{'x', 'y', 'z', 'qf'}`: raw integers, neither sign-extended nor scaled. */
  datatype Coordinates = Coordinates(x: nat, y: nat, z: nat, qf: byte)

  /** `{'mode': mode, 'position': ...}`. */
  datatype LocationInfo = LocationInfo(mode: byte, position: Option<Coordinates>)

  /**
    `process_location_data`: `location_data[0]` raises on an empty frame; a
    mode-0 frame raises at `location_data[13]` unless it has 14 bytes (the
    shorter slices before it do not raise); any other mode has no position.
   */
  function ProcessLocationData(data: seq<byte>): (r: Result<LocationInfo>)
    ensures r.Failure? <==> data == [] || (data[0] == 0 && |data| < 14)
    ensures r.Failure? ==> r.error == IndexOutOfRange
    ensures r.Success? ==> r.value.mode == data[0] && (r.value.position.Some? <==> data[0] == 0)
    ensures r.Success? && r.value.position.Some? ==>
      var p := r.value.position.value;
      IsUInt32(p.x) && IsUInt32(p.y) && IsUInt32(p.z) && p.qf == data[13]
  {
    if data == [] then Failure(IndexOutOfRange)
    else if data[0] != 0 then Success(LocationInfo(data[0], None))
    else if |data| < 14 then Failure(IndexOutOfRange)
    else Success(LocationInfo(0, Some(Coordinates(U32LE(data[1 .. 5]), U32LE(data[5 .. 9]), U32LE(data[9 .. 13]), data[13]))))
  }

  /** The signed millimetres that an unsigned 32-bit reading stands for. */
  function Signed(u: nat): int
  {
    if u < TWO_31 then u else u - TWO_32
  }

  /** The unsigned 32-bit reading of a signed millimetre value. */
  function Unsigned(v: int): nat
    requires IsInt32(v)
  {
    if v < 0 then v + TWO_32 else v
  }

  /**
    Against gateway/location.py on the same frame: both accept exactly the
    same mode-0 frames, and each coordinate here is the two's-complement
    reading of the millimetres that decoder reports in metres.
   */
  lemma UnsignedVersusSigned(data: seq<byte>)
    requires data != [] && data[0] == 0
    ensures ProcessLocationData(data).Success? <==> Location.DecodeMode0(data).Success?
    ensures ProcessLocationData(data).Success? ==>
      var p := ProcessLocationData(data).value.position.value;
      Location.DecodeMode0(data).value.position == Some(Location.Position(
        Location.Metres(Signed(p.x)), Location.Metres(Signed(p.y)), Location.Metres(Signed(p.z)), p.qf))
  {
  }

  /** A position frame as the firmware sends it reads back with each negative coordinate offset by 2^32. */
  lemma EncodedPositionReadsUnsigned(p: Location.RawPosition)
    requires Location.ValidPosition(p)
    ensures ProcessLocationData(Location.EncodeMode0(0, p)) ==
      Success(LocationInfo(0, Some(Coordinates(Unsigned(p.xMm), Unsigned(p.yMm), Unsigned(p.zMm), p.quality))))
  {
    var e := Location.EncodeMode0(0, p);
    assert e[1 .. 5] == LES32(p.xMm);
    assert e[5 .. 9] == LES32(p.yMm);
    assert e[9 .. 13] == LES32(p.zMm);
  }

  // ---------------------------------------------------------------- send-rate rule

  const MOVEMENT_THRESHOLD: int := 100
  const MOVING_INTERVAL: real := 1.0
  const STATIONARY_INTERVAL: real := 10.0

  /** The closure state of `setup_tag_notify`: `last_position` and `last_send_time`. */
  datatype TagState = TagState(lastPosition: Option<Coordinates>, lastSendTime: real)

  const INITIAL := TagState(None, 0.0)

  function Abs(v: int): nat { if v < 0 then -v else v }

  /** Both positions present and some axis moved strictly more than the threshold. */
  predicate IsMoving(last: Option<Coordinates>, current: Option<Coordinates>)
  {
    && last.Some? && current.Some?
    && (|| Abs(current.value.x - last.value.x) > MOVEMENT_THRESHOLD
        || Abs(current.value.y - last.value.y) > MOVEMENT_THRESHOLD
        || Abs(current.value.z - last.value.z) > MOVEMENT_THRESHOLD)
  }

  function Interval(moving: bool): real
  {
    if moving then MOVING_INTERVAL else STATIONARY_INTERVAL
  }

  /** A posted location record, with the movement verdict that chose its interval. */
  datatype Post = Post(info: LocationInfo, time: real, moving: bool)

  datatype Notified = Notified(state: TagState, post: Option<Post>)

  /**
    `handle_notify` at clock reading `now`. A frame `process_location_data`
    raises on escapes the handler before either variable is assigned.
    Otherwise `last_position` always becomes the new position (None
    included), and a record is posted, moving `last_send_time` to `now`,
    exactly when the interval for the movement verdict has elapsed.
   */
  function HandleNotify(s: TagState, data: seq<byte>, now: real): (r: Notified)
    ensures ProcessLocationData(data).Failure? ==> r == Notified(s, None)
    ensures ProcessLocationData(data).Success? ==>
      var info := ProcessLocationData(data).value;
      && r.state.lastPosition == info.position
      && (r.post.Some? <==> now - s.lastSendTime >= Interval(IsMoving(s.lastPosition, info.position)))
    ensures r.post.Some? ==>
      && r.post.value.time == now && r.state.lastSendTime == now
      && r.post.value.moving == IsMoving(s.lastPosition, r.state.lastPosition)
      && now - s.lastSendTime >= Interval(r.post.value.moving)
    ensures r.post.None? ==> r.state.lastSendTime == s.lastSendTime
  {
    match ProcessLocationData(data)
    case Failure(_) => Notified(s, None)
    case Success(info) =>
      var moving := IsMoving(s.lastPosition, info.position);
      if now - s.lastSendTime >= Interval(moving)
      then Notified(TagState(info.position, now), Some(Post(info, now, moving)))
      else Notified(TagState(info.position, s.lastSendTime), None)
  }

  /** One notification: the frame and the clock reading when it arrived. */
  datatype Event = Event(data: seq<byte>, time: real)

  /** The state after handling `events` in order. */
  function Final(s: TagState, events: seq<Event>): TagState
    decreases |events|
  {
    if events == [] then s
    else Final(HandleNotify(s, events[0].data, events[0].time).state, events[1..])
  }

  /** The records posted while handling `events`, in order. */
  function Posts(s: TagState, events: seq<Event>): seq<Post>
    decreases |events|
  {
    if events == [] then []
    else
      var n := HandleNotify(s, events[0].data, events[0].time);
      (if n.post.Some? then [n.post.value] else []) + Posts(n.state, events[1..])
  }

  /** When the post before post `k` was made; `base` before the first. */
  function Previous(t: seq<Post>, base: real, k: nat): real
    requires k < |t|
  {
    if k == 0 then base else t[k - 1].time
  }

  /** Every post is at least its interval after the one before it. */
  predicate Spaced(t: seq<Post>, base: real)
  {
    forall k :: 0 <= k < |t| ==> t[k].time - Previous(t, base, k) >= Interval(t[k].moving)
  }

  /** A post made its interval after `base`, followed by posts spaced from it. */
  lemma SpacedCons(p: Post, rest: seq<Post>, base: real)
    requires p.time - base >= Interval(p.moving)
    requires Spaced(rest, p.time)
    ensures Spaced([p] + rest, base)
  {
    var t := [p] + rest;
    forall k | 0 <= k < |t|
      ensures t[k].time - Previous(t, base, k) >= Interval(t[k].moving)
    {
      if k > 0 {
        var j := k - 1;
        assert t[k] == rest[j];
        assert rest[j].time - Previous(rest, p.time, j) >= Interval(rest[j].moving);
        if j > 0 {
          assert t[k - 1] == rest[j - 1];
        }
      }
    }
  }

  /**
    Every post is at least its interval after the previous post, or after
    the starting `last_send_time` for the first. No ordering of clock
    readings is assumed.
   */
  lemma {:induction false} PostSpacing(s: TagState, events: seq<Event>)
    ensures Spaced(Posts(s, events), s.lastSendTime)
    decreases |events|
  {
    if events != [] {
      var n := HandleNotify(s, events[0].data, events[0].time);
      var rest := Posts(n.state, events[1..]);
      PostSpacing(n.state, events[1..]);
      if n.post.Some? {
        assert Posts(s, events) == [n.post.value] + rest;
        SpacedCons(n.post.value, rest, s.lastSendTime);
      } else {
        assert Posts(s, events) == rest;
      }
    }
  }

  /** `last_send_time` ends as the time of the last post, and is untouched when nothing was posted. */
  lemma {:induction false} LastSendTimeIsLastPost(s: TagState, events: seq<Event>)
    ensures var t := Posts(s, events);
      Final(s, events).lastSendTime == if t == [] then s.lastSendTime else t[|t| - 1].time
    decreases |events|
  {
    if events != [] {
      var n := HandleNotify(s, events[0].data, events[0].time);
      var rest := Posts(n.state, events[1..]);
      LastSendTimeIsLastPost(n.state, events[1..]);
      assert Final(s, events) == Final(n.state, events[1..]);
      if n.post.Some? {
        assert Posts(s, events) == [n.post.value] + rest;
      } else {
        assert Posts(s, events) == rest;
      }
    }
  }

  /**
    From the initial state, consecutive posts are at least 1 second apart,
    and at least 10 seconds apart when the later one was made for a
    stationary tag.
   */
  lemma ConsecutivePosts(events: seq<Event>, k: nat)
    requires 0 < k < |Posts(INITIAL, events)|
    ensures Posts(INITIAL, events)[k].time - Posts(INITIAL, events)[k - 1].time >= MOVING_INTERVAL
    ensures !Posts(INITIAL, events)[k].moving ==>
      Posts(INITIAL, events)[k].time - Posts(INITIAL, events)[k - 1].time >= STATIONARY_INTERVAL
  {
    PostSpacing(INITIAL, events);
    assert Previous(Posts(INITIAL, events), INITIAL.lastSendTime, k) == Posts(INITIAL, events)[k - 1].time;
  }

  /**
    A frame without a position (any mode but 0) clears `last_position`, so
    the next notification is judged stationary and waits the full 10 seconds.
   */
  lemma PositionlessFrameResetsMovement(s: TagState, d1: seq<byte>, t1: real, d2: seq<byte>, t2: real)
    requires d1 != [] && d1[0] != 0
    ensures var s1 := HandleNotify(s, d1, t1).state;
      var n := HandleNotify(s1, d2, t2);
      n.post.Some? ==> !n.post.value.moving && t2 - s1.lastSendTime >= STATIONARY_INTERVAL
  {
  }

  /** Position frames one millimetre either side of zero on x. */
  const MINUS_ONE_MM: seq<byte> := [0, 0xff, 0xff, 0xff, 0xff, 0, 0, 0, 0, 0, 0, 0, 0, 50]
  const PLUS_ONE_MM: seq<byte> := [0, 0x01, 0, 0, 0, 0, 0, 0, 0, 0, 0, 0, 0, 50]

  /**
    Read as unsigned, a 2 mm step across x = 0 is a jump of 2^32 - 2, so the
    tag counts as moving and posts at the 1-second rate, while the signed
    decoder of gateway/location.py puts the two positions 0.002 m apart.
   */
  lemma ZeroCrossingCountsAsMoving(t0: real, t1: real)
    requires t1 - t0 >= MOVING_INTERVAL
    ensures Location.DecodeMode0(MINUS_ONE_MM).value.position.value.x == -0.001
    ensures Location.DecodeMode0(PLUS_ONE_MM).value.position.value.x == 0.001
    ensures var s1 := HandleNotify(TagState(None, t0), MINUS_ONE_MM, t0).state;
      var n := HandleNotify(s1, PLUS_ONE_MM, t1);
      n.post.Some? && n.post.value.moving
  {
    assert MINUS_ONE_MM[1 .. 5] == [0xff, 0xff, 0xff, 0xff];
    assert PLUS_ONE_MM[1 .. 5] == [0x01, 0, 0, 0];
    assert MINUS_ONE_MM[5 .. 9] == PLUS_ONE_MM[5 .. 9] == [0, 0, 0, 0];
    assert MINUS_ONE_MM[9 .. 13] == PLUS_ONE_MM[9 .. 13] == [0, 0, 0, 0];
  }
}
