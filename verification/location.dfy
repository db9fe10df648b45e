/**
  The Location Data characteristic of the DWM1001 (gateway/location.py).

  Mode 0 is a position: a mode byte, then x, y, z as signed little-endian
  32-bit millimetres and a quality byte. Mode 1 is a ranging list: a count
  byte, then `count` entries of a 16-bit node id, a signed 32-bit distance in
  millimetres and a quality byte. Mode 2 is a 14-byte mode-0 block followed by
  a mode-1 block. Millimetres are divided by 1000, so the decoded coordinates
  and distances are metres.

  The Python decoders return dicts; here a dict is a `Fields` record whose
  fields are present or absent exactly as the dict's keys are, and `Update`
  is `dict.update`.
 */
module Location {
  import opened Wrappers
  import opened Bytes

  /** `mm / 1000`, the metres the decoders report. */
  function Metres(mm: int): real
  {
    mm as real / 1000.0
  }

  datatype Position = Position(x: real, y: real, z: real, quality: byte)

  datatype Distance = Distance(nodeId: nat, distance: real, quality: byte)

  /** The dict keys: "type", "Mode:", "Position", "Distances count:", "Distances". */
  datatype Key = TypeKey | ModeKey | PositionKey | CountKey | DistancesKey

  datatype Value = ByteValue(b: byte) | PositionValue(p: Position) | DistancesValue(ds: seq<Distance>)

  /** A decoded location dict. */
  datatype Fields = Fields(
    frameType: Option<byte>,
    mode: Option<byte>,
    position: Option<Position>,
    count: Option<byte>,
    distances: Option<seq<Distance>>)

  const NoFields := Fields(None, None, None, None, None)

  /** `d.get(k)`. */
  function Get(f: Fields, k: Key): Option<Value>
  {
    match k
    case TypeKey => if f.frameType.Some? then Some(ByteValue(f.frameType.value)) else None
    case ModeKey => if f.mode.Some? then Some(ByteValue(f.mode.value)) else None
    case PositionKey => if f.position.Some? then Some(PositionValue(f.position.value)) else None
    case CountKey => if f.count.Some? then Some(ByteValue(f.count.value)) else None
    case DistancesKey => if f.distances.Some? then Some(DistancesValue(f.distances.value)) else None
  }

  function Keys(f: Fields): (r: set<Key>)
    ensures forall k :: k in r <==> Get(f, k).Some?
  {
    set k: Key | k in {TypeKey, ModeKey, PositionKey, CountKey, DistancesKey} && Get(f, k).Some?
  }

  function Pick<T>(a: Option<T>, b: Option<T>): Option<T>
  {
    if b.Some? then b else a
  }

  /** `a.update(b)`: keys of `b` take `b`'s values, every other key keeps `a`'s. */
  function Update(a: Fields, b: Fields): (r: Fields)
    ensures forall k :: Get(r, k) == if k in Keys(b) then Get(b, k) else Get(a, k)
    ensures Keys(r) == Keys(a) + Keys(b)
  {
    Fields(Pick(a.frameType, b.frameType), Pick(a.mode, b.mode), Pick(a.position, b.position),
           Pick(a.count, b.count), Pick(a.distances, b.distances))
  }

  /** With disjoint keys neither side overwrites the other, so the order of the updates is immaterial. */
  lemma UpdateDisjoint(a: Fields, b: Fields)
    requires Keys(a) !! Keys(b)
    ensures forall k :: k in Keys(a) ==> Get(Update(a, b), k) == Get(a, k)
    ensures Update(a, b) == Update(b, a)
  {
    assert forall k :: k in Keys(a) ==> k !in Keys(b);
    assert a.frameType.None? || b.frameType.None? by { assert Get(a, TypeKey).None? || Get(b, TypeKey).None?; }
    assert a.mode.None? || b.mode.None? by { assert Get(a, ModeKey).None? || Get(b, ModeKey).None?; }
    assert a.position.None? || b.position.None? by { assert Get(a, PositionKey).None? || Get(b, PositionKey).None?; }
    assert a.count.None? || b.count.None? by { assert Get(a, CountKey).None? || Get(b, CountKey).None?; }
    assert a.distances.None? || b.distances.None? by { assert Get(a, DistancesKey).None? || Get(b, DistancesKey).None?; }
  }

  // ---------------------------------------------------------------- field layouts

  /** The 13-byte position block `"<iiiB"` starting at `off`. */
  function PositionAt(data: seq<byte>, off: nat): Position
    requires off + 13 <= |data|
  {
    Position(Metres(S32LE(data[off .. off + 4])), Metres(S32LE(data[off + 4 .. off + 8])),
             Metres(S32LE(data[off + 8 .. off + 12])), data[off + 12])
  }

  /** The 7-byte ranging entry `"<H i B"` starting at `off`. */
  function DistanceAt(data: seq<byte>, off: nat): Distance
    requires off + 7 <= |data|
  {
    Distance(U16LE(data[off .. off + 2]), Metres(S32LE(data[off + 2 .. off + 6])), data[off + 6])
  }

  /** A field layout read at `off` is the same layout read at 0 of the slice taken there. */
  lemma PositionAtSlice(data: seq<byte>, off: nat)
    requires off + 13 <= |data|
    ensures PositionAt(data, off) == PositionAt(data[off .. off + 13], 0)
  {
    var b := data[off .. off + 13];
    assert forall k | 0 <= k < 13 :: b[k] == data[off + k];
    assert b[0 .. 4] == data[off .. off + 4];
    assert b[4 .. 8] == data[off + 4 .. off + 8];
    assert b[8 .. 12] == data[off + 8 .. off + 12];
  }

  lemma DistanceAtSlice(data: seq<byte>, off: nat)
    requires off + 7 <= |data|
    ensures DistanceAt(data, off) == DistanceAt(data[off .. off + 7], 0)
  {
    var b := data[off .. off + 7];
    assert forall k | 0 <= k < 7 :: b[k] == data[off + k];
    assert b[0 .. 2] == data[off .. off + 2];
    assert b[2 .. 6] == data[off + 2 .. off + 6];
  }

  // ---------------------------------------------------------------- decoders

  /** `decode_location_mode_0`: the mode byte, then `struct.unpack("<iiiB", data[1:14])`. */
  function DecodeMode0(data: seq<byte>): (r: Result<Fields>)
    ensures data == [] ==> r == Failure(IndexOutOfRange)
    ensures r.Success? <==> |data| >= 14
    ensures r.Success? ==> Keys(r.value) == {ModeKey, PositionKey}
    ensures r.Success? ==> r.value.mode == Some(data[0]) && r.value.position == Some(PositionAt(data, 1))
  {
    if data == [] then Failure(IndexOutOfRange)
    else
      var block := Slice(data, 1, 14);
      if |block| != 13 then Failure(BufferSize(13, |block|))
      else Success(NoFields.(mode := Some(data[0]), position := Some(PositionAt(data, 1))))
  }

  /**
    The loop of `decode_location_mode_1` with `remaining` entries to go and
    the next one at `off`: each entry is unpacked from `data[off : off + 7]`,
    which raises unless all seven bytes are there.
   */
  function DistanceList(data: seq<byte>, off: nat, remaining: nat): (r: Result<seq<Distance>>)
    ensures r.Success? <==> remaining == 0 || off + 7 * remaining <= |data|
    ensures r.Success? ==> |r.value| == remaining
    decreases remaining
  {
    if remaining == 0 then Success([])
    else
      var entry := Slice(data, off, off + 7);
      if |entry| != 7 then Failure(BufferSize(7, |entry|))
      else match DistanceList(data, off + 7, remaining - 1)
        case Success(rest) => Success([DistanceAt(data, off)] + rest)
        case Failure(e) => Failure(e)
  }

  /** Entry `j` of the list comes from the seven bytes at `off + 7 j`. */
  lemma {:induction false} DistanceListAt(data: seq<byte>, off: nat, remaining: nat, j: nat)
    requires DistanceList(data, off, remaining).Success?
    requires j < remaining
    ensures off + 7 * j + 7 <= |data|
    ensures DistanceList(data, off, remaining).value[j] == DistanceAt(data, off + 7 * j)
    decreases remaining
  {
    DistanceListCons(data, off, remaining);
    var r := DistanceList(data, off, remaining).value;
    var rest := DistanceList(data, off + 7, remaining - 1).value;
    if j == 0 {
      assert r[0] == DistanceAt(data, off);
    } else {
      DistanceListAt(data, off + 7, remaining - 1, j - 1);
      assert off + 7 + 7 * (j - 1) == off + 7 * j;
      assert r[j] == rest[j - 1];
    }
  }

  /** A successful list is its first entry followed by the successful rest. */
  lemma DistanceListCons(data: seq<byte>, off: nat, remaining: nat)
    requires DistanceList(data, off, remaining).Success?
    requires remaining > 0
    ensures off + 7 <= |data|
    ensures DistanceList(data, off + 7, remaining - 1).Success?
    ensures DistanceList(data, off, remaining).value == [DistanceAt(data, off)] + DistanceList(data, off + 7, remaining - 1).value
  {
    assert |Slice(data, off, off + 7)| == 7;
  }

  lemma DistanceListEntries(data: seq<byte>, off: nat, remaining: nat)
    requires DistanceList(data, off, remaining).Success?
    ensures forall j :: 0 <= j < remaining ==>
      DistanceList(data, off, remaining).value[j] == DistanceAt(data, off + 7 * j)
  {
    forall j | 0 <= j < remaining
      ensures DistanceList(data, off, remaining).value[j] == DistanceAt(data, off + 7 * j)
    {
      DistanceListAt(data, off, remaining, j);
    }
  }

  /** `decode_location_mode_1`: the count is `data[0]`; a short list raises rather than being cut. */
  function DecodeMode1(data: seq<byte>): (r: Result<Fields>)
    ensures data == [] ==> r == Failure(IndexOutOfRange)
    ensures r.Success? <==> data != [] && 1 + 7 * data[0] <= |data|
    ensures r.Success? ==> Keys(r.value) == {CountKey, DistancesKey}
    ensures r.Success? ==> r.value.count == Some(data[0]) && |r.value.distances.value| == data[0]
    ensures r.Success? ==> forall j :: 0 <= j < data[0] ==> r.value.distances.value[j] == DistanceAt(data, 1 + 7 * j)
  {
    if data == [] then Failure(IndexOutOfRange)
    else
      match DistanceList(data, 1, data[0])
      case Success(ds) =>
        DistanceListEntries(data, 1, data[0]);
        Success(NoFields.(count := Some(data[0]), distances := Some(ds)))
      case Failure(e) => Failure(e)
  }

  /** `decode_location_mode_2`: `mode_0(data[:14])` updated with `mode_1(data[14:])`. */
  function DecodeMode2(data: seq<byte>): Result<Fields>
  {
    match DecodeMode0(Take(data, 14))
    case Failure(e) => Failure(e)
    case Success(position) =>
      match DecodeMode1(Drop(data, 14))
      case Failure(e) => Failure(e)
      case Success(ranging) => Success(Update(position, ranging))
  }

  /** What a mode-2 frame decodes to, byte by byte, and when it fails. */
  lemma DecodeMode2Layout(data: seq<byte>)
    ensures DecodeMode2(data).Success? <==> |data| >= 15 && 15 + 7 * data[14] <= |data|
    ensures DecodeMode2(data).Success? ==>
      var f := DecodeMode2(data).value;
      && Keys(f) == {ModeKey, PositionKey, CountKey, DistancesKey}
      && f.mode == Some(data[0])
      && f.position == Some(PositionAt(data, 1))
      && f.count == Some(data[14])
      && |f.distances.value| == data[14]
      && forall j :: 0 <= j < data[14] ==> f.distances.value[j] == DistanceAt(data, 15 + 7 * j)
  {
    if |data| >= 14 {
      var head := Take(data, 14);
      assert head == data[..14];
      PositionAtSlice(data, 1);
      PositionAtSlice(head, 1);
      assert head[1 .. 14] == data[1 .. 14];
    }
    if |data| >= 15 {
      var tail := Drop(data, 14);
      assert tail == data[14..];
      var m1 := DecodeMode1(tail);
      if m1.Success? {
        var ds := m1.value.distances.value;
        forall j | 0 <= j < data[14]
          ensures ds[j] == DistanceAt(data, 15 + 7 * j)
        {
          TailEntry(data, j);
        }
      }
    }
  }

  lemma TailEntry(data: seq<byte>, j: nat)
    requires 22 + 7 * j <= |data|
    ensures DistanceAt(data[14..], 1 + 7 * j) == DistanceAt(data, 15 + 7 * j)
  {
    var tail := data[14..];
    assert tail[1 + 7 * j .. 8 + 7 * j] == data[15 + 7 * j .. 22 + 7 * j];
    DistanceAtSlice(tail, 1 + 7 * j);
    DistanceAtSlice(data, 15 + 7 * j);
  }

  /** The position and ranging parts of a mode-2 frame never share a key. */
  lemma Mode2PartsDisjoint(data: seq<byte>)
    requires DecodeMode0(Take(data, 14)).Success? && DecodeMode1(Drop(data, 14)).Success?
    ensures Keys(DecodeMode0(Take(data, 14)).value) !! Keys(DecodeMode1(Drop(data, 14)).value)
    ensures DecodeMode2(data) == Success(Update(DecodeMode1(Drop(data, 14)).value, DecodeMode0(Take(data, 14)).value))
  {
    UpdateDisjoint(DecodeMode0(Take(data, 14)).value, DecodeMode1(Drop(data, 14)).value);
  }

  /** Bytes past the 14th never change a mode-0 decode. */
  lemma Mode0IgnoresTail(data: seq<byte>, extra: seq<byte>)
    requires |data| >= 14
    ensures DecodeMode0(data + extra) == DecodeMode0(data)
  {
    assert (data + extra)[1 .. 14] == data[1 .. 14];
  }

  /** Bytes past the declared ranging list never change a mode-1 decode. */
  lemma Mode1IgnoresTail(data: seq<byte>, extra: seq<byte>)
    requires DecodeMode1(data).Success?
    ensures DecodeMode1(data + extra) == DecodeMode1(data)
  {
    var a := DecodeMode1(data).value.distances.value;
    var b := DecodeMode1(data + extra).value.distances.value;
    forall j | 0 <= j < data[0]
      ensures a[j] == b[j]
    {
      assert (data + extra)[1 + 7 * j .. 8 + 7 * j] == data[1 + 7 * j .. 8 + 7 * j];
    }
    assert a == b;
  }

  // ---------------------------------------------------------------- encoders

  /** A position as the firmware sends it: millimetres and a quality byte. */
  datatype RawPosition = RawPosition(xMm: int, yMm: int, zMm: int, quality: byte)

  /** A ranging entry as the firmware sends it. */
  datatype RawDistance = RawDistance(nodeId: nat, distanceMm: int, quality: byte)

  predicate ValidPosition(p: RawPosition) { IsInt32(p.xMm) && IsInt32(p.yMm) && IsInt32(p.zMm) }

  predicate ValidDistance(d: RawDistance) { d.nodeId < TWO_16 && IsInt32(d.distanceMm) }

  function InMetres(p: RawPosition): Position
  {
    Position(Metres(p.xMm), Metres(p.yMm), Metres(p.zMm), p.quality)
  }

  function DistanceInMetres(d: RawDistance): Distance
  {
    Distance(d.nodeId, Metres(d.distanceMm), d.quality)
  }

  function EncodePosition(p: RawPosition): (r: seq<byte>)
    requires ValidPosition(p)
    ensures |r| == 13
  {
    LES32(p.xMm) + LES32(p.yMm) + LES32(p.zMm) + [p.quality]
  }

  function EncodeEntries(ds: seq<RawDistance>): (r: seq<byte>)
    requires forall i :: 0 <= i < |ds| ==> ValidDistance(ds[i])
    ensures |r| == 7 * |ds|
  {
    if ds == [] then []
    else
      assert ValidDistance(ds[0]);
      LE16(ds[0].nodeId) + LES32(ds[0].distanceMm) + [ds[0].quality] + EncodeEntries(ds[1..])
  }

  /** A mode-0 frame. */
  function EncodeMode0(mode: byte, p: RawPosition): (r: seq<byte>)
    requires ValidPosition(p)
    ensures |r| == 14
  {
    [mode] + EncodePosition(p)
  }

  /** A mode-1 frame: the count, then the entries. */
  function EncodeMode1(ds: seq<RawDistance>): (r: seq<byte>)
    requires |ds| < 256
    requires forall i :: 0 <= i < |ds| ==> ValidDistance(ds[i])
    ensures |r| == 1 + 7 * |ds|
  {
    [|ds|] + EncodeEntries(ds)
  }

  lemma PositionRoundTrip(p: RawPosition)
    requires ValidPosition(p)
    ensures PositionAt(EncodePosition(p), 0) == InMetres(p)
  {
    var e := EncodePosition(p);
    assert e[0 .. 4] == LES32(p.xMm);
    assert e[4 .. 8] == LES32(p.yMm);
    assert e[8 .. 12] == LES32(p.zMm);
  }

  lemma {:induction false} EntriesRoundTrip(ds: seq<RawDistance>, j: nat)
    requires forall i :: 0 <= i < |ds| ==> ValidDistance(ds[i])
    requires j < |ds|
    ensures DistanceAt(EncodeEntries(ds), 7 * j) == DistanceInMetres(ds[j])
  {
    var e := EncodeEntries(ds);
    if j == 0 {
      assert e[0 .. 2] == LE16(ds[0].nodeId);
      assert e[2 .. 6] == LES32(ds[0].distanceMm);
    } else {
      EntriesRoundTrip(ds[1..], j - 1);
      var rest := EncodeEntries(ds[1..]);
      assert e == e[..7] + rest;
      assert e[7 * j .. 7 * j + 7] == rest[7 * (j - 1) .. 7 * (j - 1) + 7];
      DistanceAtSlice(e, 7 * j);
      DistanceAtSlice(rest, 7 * (j - 1));
    }
  }

  /** Decoding a mode-0 frame gives back its mode byte and position, in metres. */
  lemma Mode0RoundTrip(mode: byte, p: RawPosition)
    requires ValidPosition(p)
    ensures DecodeMode0(EncodeMode0(mode, p)) == Success(NoFields.(mode := Some(mode), position := Some(InMetres(p))))
  {
    var e := EncodeMode0(mode, p);
    PositionRoundTrip(p);
    PositionAtSlice(e, 1);
    assert e[1 .. 14] == EncodePosition(p);
  }

  /** Decoding a mode-1 frame gives back every entry, in order, in metres. */
  lemma Mode1RoundTrip(ds: seq<RawDistance>)
    requires |ds| < 256
    requires forall i :: 0 <= i < |ds| ==> ValidDistance(ds[i])
    ensures DecodeMode1(EncodeMode1(ds)).Success?
    ensures DecodeMode1(EncodeMode1(ds)).value.count == Some(|ds|)
    ensures DecodeMode1(EncodeMode1(ds)).value.distances == Some(seq(|ds|, i requires 0 <= i < |ds| => DistanceInMetres(ds[i])))
  {
    var e := EncodeMode1(ds);
    assert e[0] == |ds|;
    var got := DecodeMode1(e).value.distances.value;
    forall j | 0 <= j < |ds|
      ensures got[j] == DistanceInMetres(ds[j])
    {
      Mode1EntryRoundTrip(ds, j);
    }
    assert got == seq(|ds|, i requires 0 <= i < |ds| => DistanceInMetres(ds[i]));
  }

  lemma Mode1EntryRoundTrip(ds: seq<RawDistance>, j: nat)
    requires |ds| < 256
    requires forall i :: 0 <= i < |ds| ==> ValidDistance(ds[i])
    requires j < |ds|
    ensures DistanceAt(EncodeMode1(ds), 1 + 7 * j) == DistanceInMetres(ds[j])
  {
    var e := EncodeMode1(ds);
    var body := EncodeEntries(ds);
    EntriesRoundTrip(ds, j);
    assert e[1 + 7 * j .. 8 + 7 * j] == body[7 * j .. 7 * j + 7];
    DistanceAtSlice(e, 1 + 7 * j);
    DistanceAtSlice(body, 7 * j);
  }

  // ---------------------------------------------------------------- captured frames

  /** The position block of both captures: mode 2, x = 707, y = 542, z = 1129 mm, quality 0x38. */
  const CAPTURE_X: seq<byte> := [0xc3, 0x02, 0x00, 0x00]
  const CAPTURE_Y: seq<byte> := [0x1e, 0x02, 0x00, 0x00]
  const CAPTURE_Z: seq<byte> := [0x69, 0x04, 0x00, 0x00]
  const CAPTURE_BLOCK: seq<byte> := [0x02] + CAPTURE_X + CAPTURE_Y + CAPTURE_Z + [0x38]

  /** The first ranging entry of the 43-byte capture: node 0xD40F, 2318 mm, quality 100. */
  const CAPTURE_FIRST_ENTRY: seq<byte> := [0x0f, 0xd4, 0x0e, 0x09, 0x00, 0x00, 0x64]

  /** Its ranging block: a count of 4, then four entries. */
  const CAPTURE_RANGING: seq<byte> :=
    [0x04] + CAPTURE_FIRST_ENTRY +
    [0x9a, 0xd2, 0x79, 0x06, 0x00, 0x00, 0x64,
     0x11, 0xc5, 0x2d, 0x08, 0x00, 0x00, 0x64,
     0x0e, 0xc6, 0xed, 0x08, 0x00, 0x00, 0x64]

  /** The 16-byte capture: the position block, then a count of 4 with one byte after it. */
  const SHORT_CAPTURE: seq<byte> := CAPTURE_BLOCK + [0x04, 0x0f]

  /** The 43-byte capture: the position block and four ranging entries. */
  const FULL_CAPTURE: seq<byte> := CAPTURE_BLOCK + CAPTURE_RANGING

  lemma CaptureBlockPosition()
    ensures |CAPTURE_BLOCK| == 14 && CAPTURE_BLOCK[0] == 2
    ensures PositionAt(CAPTURE_BLOCK, 1) == Position(0.707, 0.542, 1.129, 56)
  {
    var b := CAPTURE_BLOCK;
    assert b[1 .. 5] == CAPTURE_X;
    assert b[5 .. 9] == CAPTURE_Y;
    assert b[9 .. 13] == CAPTURE_Z;
    assert S32LE(CAPTURE_X) == 707 && S32LE(CAPTURE_Y) == 542 && S32LE(CAPTURE_Z) == 1129;
  }

  /** Mode 0 of the 43-byte capture: (0.707, 0.542, 1.129) metres, quality 56. */
  lemma FullCapturePosition()
    ensures DecodeMode0(FULL_CAPTURE) == Success(NoFields.(mode := Some(2), position := Some(Position(0.707, 0.542, 1.129, 56))))
  {
    CaptureBlockPosition();
    Mode0IgnoresTail(CAPTURE_BLOCK, CAPTURE_RANGING);
  }

  /** Mode 1 of its tail: four entries, the first from node 0xD40F at 2.318 m with quality 100. */
  lemma FullCaptureRanging()
    ensures DecodeMode1(FULL_CAPTURE[14..]).Success?
    ensures DecodeMode1(FULL_CAPTURE[14..]).value.count == Some(4)
    ensures DecodeMode1(FULL_CAPTURE[14..]).value.distances.value[0] == Distance(0xD40F, 2.318, 100)
  {
    CaptureBlockPosition();
    var r := CAPTURE_RANGING;
    assert FULL_CAPTURE[14..] == r;
    assert |r| == 29 && r[0] == 4;
    assert r[1 .. 8] == CAPTURE_FIRST_ENTRY;
    DistanceAtSlice(r, 1);
    var e := CAPTURE_FIRST_ENTRY;
    assert e[0 .. 2] == [0x0f, 0xd4];
    assert e[2 .. 6] == [0x0e, 0x09, 0x00, 0x00];
  }

  /** The 16-byte capture declares four entries but carries one byte of them, so it raises. */
  lemma ShortCaptureFails()
    ensures DecodeMode1(SHORT_CAPTURE[14..]).Failure?
    ensures DecodeMode2(SHORT_CAPTURE).Failure?
  {
    CaptureBlockPosition();
    DecodeMode2Layout(SHORT_CAPTURE);
    assert |SHORT_CAPTURE| == 16 && SHORT_CAPTURE[14] == 4;
    assert SHORT_CAPTURE[14..] == [0x04, 0x0f];
  }
}
