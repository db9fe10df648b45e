/**
  The 2-byte Operation Mode characteristic of the DWM1001.

  Byte 0: bit 7 anchor (1) or tag (0); bits 6-5 UWB mode (off, passive,
  active); bit 4 firmware 2 selected; bit 3 accelerometer enable; bit 2 LED
  enable; bit 1 firmware update enable; bit 0 reserved. Byte 1: bit 7
  initiator enable (anchors), bit 6 low-power mode and bit 5 location engine
  enable (tags); bits 4-0 reserved.

  The full decoder is gateway/tag-op-check.py; gateway/utils.py and
  gateway/test_all.py only read the role bit, and gateway/test_all.py writes
  the two role presets back.
 */
module OperationMode {
  import opened Wrappers
  import opened Bytes

  datatype NodeType = Tag | Anchor

  datatype UwbMode = Off | Passive | Active

  datatype Firmware = Firmware1 | Firmware2

  /** The role-specific part of byte 1: an anchor reports only the initiator bit, a tag the other two. */
  datatype RoleFlags =
    | AnchorFlags(initiatorEnable: bool)
    | TagFlags(lowPowerMode: bool, locationEngineEnable: bool)

  /** The dict `decode_operation_mode` returns; "node_type" is the kind of `role`. */
  datatype OpMode = OpMode(
    uwb: UwbMode,
    firmware: Firmware,
    accelerometerEnable: bool,
    ledEnable: bool,
    firmwareUpdateEnable: bool,
    role: RoleFlags)

  function NodeTypeOf(m: OpMode): NodeType
  {
    if m.role.AnchorFlags? then Anchor else Tag
  }

  /** `b & (1 << k) != 0`. */
  predicate Bit(b: byte, k: nat)
    requires k < 8
  {
    match k
    case 0 => b % 2 == 1
    case 1 => (b / 2) % 2 == 1
    case 2 => (b / 4) % 2 == 1
    case 3 => (b / 8) % 2 == 1
    case 4 => (b / 16) % 2 == 1
    case 5 => (b / 32) % 2 == 1
    case 6 => (b / 64) % 2 == 1
    case _ => b / 128 == 1
  }

  /** `["off", "passive", "active"][i]`, which raises for i = 3. */
  function UwbModeAt(i: nat): Result<UwbMode>
  {
    if i == 0 then Success(Off)
    else if i == 1 then Success(Passive)
    else if i == 2 then Success(Active)
    else Failure(IndexOutOfRange)
  }

  function UwbIndex(u: UwbMode): (r: nat)
    ensures r < 3 && UwbModeAt(r) == Success(u)
  {
    match u
    case Off => 0
    case Passive => 1
    case Active => 2
  }

  /** `decode_operation_mode` of gateway/tag-op-check.py. */
  function DecodeOperationMode(s: seq<byte>): (r: Result<OpMode>)
    ensures |s| != 2 ==> r == Failure(WrongLength(2, |s|))
    ensures r.Success? <==> |s| == 2 && (s[0] / 32) % 4 != 3
    ensures r.Success? ==> (NodeTypeOf(r.value) == Anchor <==> s[0] >= 128)
    ensures r.Success? ==> UwbIndex(r.value.uwb) == (s[0] / 32) % 4
  {
    if |s| != 2 then Failure(WrongLength(2, |s|))
    else
      var b0 := s[0];
      var b1 := s[1];
      match UwbModeAt((b0 / 32) % 4)
      case Failure(e) => Failure(e)
      case Success(uwb) =>
        var role := if Bit(b0, 7) then AnchorFlags(Bit(b1, 7)) else TagFlags(Bit(b1, 6), Bit(b1, 5));
        Success(OpMode(uwb, if Bit(b0, 4) then Firmware2 else Firmware1,
                       Bit(b0, 3), Bit(b0, 2), Bit(b0, 1), role))
  }

  function B(x: bool): nat
  {
    if x then 1 else 0
  }

  /** The two bytes that decode to `m`, with every reserved and role-irrelevant bit clear. */
  function EncodeOperationMode(m: OpMode): (r: seq<byte>)
    ensures |r| == 2
    ensures r[0] % 2 == 0 && r[1] % 32 == 0
  {
    var a, u, f, c, l, w := B(m.role.AnchorFlags?), UwbIndex(m.uwb), B(m.firmware == Firmware2),
      B(m.accelerometerEnable), B(m.ledEnable), B(m.firmwareUpdateEnable);
    var i := if m.role.AnchorFlags? then B(m.role.initiatorEnable) else 0;
    var lp := if m.role.TagFlags? then B(m.role.lowPowerMode) else 0;
    var le := if m.role.TagFlags? then B(m.role.locationEngineEnable) else 0;
    Byte0Fields(a, u, f, c, l, w);
    Byte1Fields(i, lp, le);
    [128 * a + 32 * u + 16 * f + 8 * c + 4 * l + 2 * w, 128 * i + 64 * lp + 32 * le]
  }

  /** The fields of byte 0 read back from the byte they are packed into. */
  lemma Byte0Fields(a: nat, u: nat, f: nat, c: nat, l: nat, w: nat)
    requires a < 2 && u < 4 && f < 2 && c < 2 && l < 2 && w < 2
    ensures var b := 128 * a + 32 * u + 16 * f + 8 * c + 4 * l + 2 * w;
      && b < 256 && b % 2 == 0 && b / 128 == a && (b / 32) % 4 == u && (b / 16) % 2 == f
      && (b / 8) % 2 == c && (b / 4) % 2 == l && (b / 2) % 2 == w
  {
    var b := 128 * a + 32 * u + 16 * f + 8 * c + 4 * l + 2 * w;
    assert b / 2 == 64 * a + 16 * u + 8 * f + 4 * c + 2 * l + w;
    assert b / 4 == 32 * a + 8 * u + 4 * f + 2 * c + l;
    assert b / 8 == 16 * a + 4 * u + 2 * f + c;
    assert b / 16 == 8 * a + 2 * u + f;
    assert b / 32 == 4 * a + u;
  }

  /** The fields of byte 1 read back from the byte they are packed into. */
  lemma Byte1Fields(i: nat, lp: nat, le: nat)
    requires i < 2 && lp < 2 && le < 2
    ensures var b := 128 * i + 64 * lp + 32 * le;
      && b < 256 && b % 32 == 0 && b / 128 == i && (b / 64) % 2 == lp && (b / 32) % 2 == le
  {
    var b := 128 * i + 64 * lp + 32 * le;
    assert b / 64 == 2 * i + lp;
    assert b / 32 == 4 * i + 2 * lp + le;
  }

  /** A byte is the sum of its bits. */
  lemma Decompose(b: byte)
    ensures b / 32 == 4 * (b / 128) + 2 * ((b / 64) % 2) + (b / 32) % 2
    ensures (b / 32) % 4 == 2 * ((b / 64) % 2) + (b / 32) % 2
    ensures b == 32 * (b / 32) + 16 * ((b / 16) % 2) + 8 * ((b / 8) % 2) + 4 * ((b / 4) % 2) + 2 * ((b / 2) % 2) + b % 2
  {
    assert b / 4 == (b / 2) / 2;
    assert b / 8 == (b / 4) / 2;
    assert b / 16 == (b / 8) / 2;
    assert b / 32 == (b / 16) / 2;
    assert b / 64 == (b / 32) / 2;
    assert b / 128 == (b / 64) / 2;
  }

  /** Each field of `m` sits in its own bit of the encoding. */
  lemma EncodedBits(m: OpMode)
    ensures var e := EncodeOperationMode(m);
      && (Bit(e[0], 7) <==> m.role.AnchorFlags?)
      && (e[0] / 32) % 4 == UwbIndex(m.uwb)
      && (Bit(e[0], 4) <==> m.firmware == Firmware2)
      && (Bit(e[0], 3) <==> m.accelerometerEnable)
      && (Bit(e[0], 2) <==> m.ledEnable)
      && (Bit(e[0], 1) <==> m.firmwareUpdateEnable)
      && (m.role.AnchorFlags? ==> (Bit(e[1], 7) <==> m.role.initiatorEnable))
      && (m.role.TagFlags? ==> (Bit(e[1], 6) <==> m.role.lowPowerMode) && (Bit(e[1], 5) <==> m.role.locationEngineEnable))
  {
    var a, u, f, c, l, w := B(m.role.AnchorFlags?), UwbIndex(m.uwb), B(m.firmware == Firmware2),
      B(m.accelerometerEnable), B(m.ledEnable), B(m.firmwareUpdateEnable);
    var i := if m.role.AnchorFlags? then B(m.role.initiatorEnable) else 0;
    var lp := if m.role.TagFlags? then B(m.role.lowPowerMode) else 0;
    var le := if m.role.TagFlags? then B(m.role.locationEngineEnable) else 0;
    Byte0Fields(a, u, f, c, l, w);
    Byte1Fields(i, lp, le);
  }

  /** Every operation mode survives encoding and decoding. */
  lemma DecodeEncode(m: OpMode)
    ensures DecodeOperationMode(EncodeOperationMode(m)) == Success(m)
  {
    EncodedBits(m);
  }

  /**
    The reserved bits (byte 0 bit 0, byte 1 bits 4-0) never change the
    result: two inputs that agree on every other bit decode alike.
   */
  lemma ReservedBitsIgnored(s: seq<byte>, t: seq<byte>)
    requires |s| == 2 && |t| == 2
    requires s[0] / 2 == t[0] / 2 && s[1] / 32 == t[1] / 32
    ensures DecodeOperationMode(s) == DecodeOperationMode(t)
  {
    HigherBits(s[0], t[0]);
    assert s[1] / 64 == t[1] / 64 && s[1] / 128 == t[1] / 128;
  }

  /** Bytes that agree above bit 0 agree on every higher power-of-two quotient. */
  lemma HigherBits(a: byte, b: byte)
    requires a / 2 == b / 2
    ensures a / 4 == b / 4 && a / 8 == b / 8 && a / 16 == b / 16
    ensures a / 32 == b / 32 && a / 64 == b / 64 && a / 128 == b / 128
  {
    assert a / 4 == (a / 2) / 2 && b / 4 == (b / 2) / 2;
    assert a / 8 == (a / 4) / 2 && b / 8 == (b / 4) / 2;
    assert a / 16 == (a / 8) / 2 && b / 16 == (b / 8) / 2;
    assert a / 32 == (a / 16) / 2 && b / 32 == (b / 16) / 2;
    assert a / 64 == (a / 32) / 2 && b / 64 == (b / 32) / 2;
    assert a / 128 == (a / 64) / 2 && b / 128 == (b / 64) / 2;
  }

  /** A decoded mode re-encodes to its first byte with the reserved bit 0 cleared. */
  lemma FirstByteBack(s: seq<byte>)
    requires DecodeOperationMode(s).Success?
    ensures EncodeOperationMode(DecodeOperationMode(s).value)[0] == s[0] - s[0] % 2
  {
    var e := EncodeOperationMode(DecodeOperationMode(s).value);
    BitsOf(s[0]);
    assert e[0] == 128 * B(Bit(s[0], 7)) + 32 * ((s[0] / 32) % 4) + 16 * B(Bit(s[0], 4))
      + 8 * B(Bit(s[0], 3)) + 4 * B(Bit(s[0], 2)) + 2 * B(Bit(s[0], 1));
    Decompose(s[0]);
  }

  /**
    ... and to its second byte with only the bits the role reads kept: bit 7
    for an anchor, bits 6 and 5 for a tag.
   */
  lemma SecondByteBack(s: seq<byte>)
    requires DecodeOperationMode(s).Success?
    ensures EncodeOperationMode(DecodeOperationMode(s).value)[1] ==
      if s[0] >= 128 then s[1] - s[1] % 128 else s[1] % 128 - s[1] % 32
  {
    var e := EncodeOperationMode(DecodeOperationMode(s).value);
    BitsOf(s[1]);
    if s[0] >= 128 {
      assert e[1] == 128 * B(Bit(s[1], 7));
    } else {
      assert e[1] == 64 * B(Bit(s[1], 6)) + 32 * B(Bit(s[1], 5));
    }
    Decompose(s[1]);
  }

  /** `B(Bit(b, k))` is the k-th binary digit of `b`. */
  lemma BitsOf(b: byte)
    ensures B(Bit(b, 7)) == b / 128 && B(Bit(b, 6)) == (b / 64) % 2 && B(Bit(b, 5)) == (b / 32) % 2
    ensures B(Bit(b, 4)) == (b / 16) % 2 && B(Bit(b, 3)) == (b / 8) % 2
    ensures B(Bit(b, 2)) == (b / 4) % 2 && B(Bit(b, 1)) == (b / 2) % 2
  {
  }

  /** Bytes `80 00`: an anchor, UWB off, firmware 1, everything disabled, initiator off. */
  lemma AnchorExample()
    ensures DecodeOperationMode([0x80, 0x00]) == Success(OpMode(Off, Firmware1, false, false, false, AnchorFlags(false)))
  {
  }

  // ---------------------------------------------------------------- role bit only

  function RoleName(n: NodeType): string
  {
    if n == Tag then "tag" else "anchor"
  }

  /**
    `decode_operation_mode` of gateway/utils.py and gateway/test_all.py:
    'tag' iff bit 7 of byte 0 is clear; `op_mode[0]` raises on empty input.
   */
  function RoleOf(s: seq<byte>): (r: Result<NodeType>)
    ensures r.Success? <==> s != []
    ensures r.Success? ==> (r.value == Tag <==> !Bit(s[0], 7))
  {
    if s == [] then Failure(IndexOutOfRange)
    else if s[0] < 128 then Success(Tag)
    else Success(Anchor)
  }

  /** `encode_operation_mode`: 'tag' gives `00 00`, any other string `80 00`. */
  function EncodeRole(name: string): (r: seq<byte>)
    ensures |r| == 2 && r[1] == 0
  {
    if name == "tag" then [0x00, 0x00] else [0x80, 0x00]
  }

  /** decode(encode(r)) == r for both role names; any other name comes back as an anchor. */
  lemma RoleRoundTrip(name: string)
    ensures RoleOf(EncodeRole(name)) == Success(if name == "tag" then Tag else Anchor)
    ensures RoleOf(EncodeRole(RoleName(Tag))) == Success(Tag)
    ensures RoleOf(EncodeRole(RoleName(Anchor))) == Success(Anchor)
  {
    assert RoleName(Anchor) != "tag";
  }

  /** Only bit 7 of byte 0 matters to the role decoder; the second byte need not even be there. */
  lemma RoleOnlyBit7(s: seq<byte>, t: seq<byte>)
    requires s != [] && t != []
    requires s[0] / 128 == t[0] / 128
    ensures RoleOf(s) == RoleOf(t)
  {
  }

  /** Where the full decoder succeeds, the role decoder names the same node type. */
  lemma RoleAgreesWithFullDecode(s: seq<byte>)
    requires DecodeOperationMode(s).Success?
    ensures RoleOf(s) == Success(NodeTypeOf(DecodeOperationMode(s).value))
  {
  }
}
