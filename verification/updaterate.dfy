/**
  The 8-byte Update Rate characteristic of a DWM1001 tag: the update interval
  while moving (U1) and while stationary (U2), each an unsigned little-endian
  32-bit count of milliseconds. gateway/rate-set.py writes it with
  `struct.pack("<I")` twice and reads it back; gateway/update_rate.py reads
  it with `struct.unpack("<II")`.
 */
module UpdateRate {
  import opened Wrappers
  import opened Bytes
  import Text

  datatype Rates = Rates(moving: nat, stationary: nat)

  /** `struct.pack("<I", u1) + struct.pack("<I", u2)`: a value outside [0, 2^32) raises `struct.error`. */
  function EncodeUpdateRate(u1: int, u2: int): (r: Result<seq<byte>>)
    ensures r.Success? <==> IsUInt32(u1) && IsUInt32(u2)
    ensures !IsUInt32(u1) ==> r == Failure(PackRange(u1))
    ensures IsUInt32(u1) && !IsUInt32(u2) ==> r == Failure(PackRange(u2))
    ensures r.Success? ==> |r.value| == 8 && U32LE(r.value[..4]) == u1 && U32LE(r.value[4..]) == u2
  {
    if !IsUInt32(u1) then Failure(PackRange(u1))
    else if !IsUInt32(u2) then Failure(PackRange(u2))
    else
      var p := LE32(u1) + LE32(u2);
      assert p[..4] == LE32(u1) && p[4..] == LE32(u2);
      Success(p)
  }

  /** `struct.unpack("<II", data)`: exactly eight bytes, else `struct.error`. */
  function DecodeUpdateRate(data: seq<byte>): (r: Result<Rates>)
    ensures r.Success? <==> |data| == 8
    ensures r.Failure? ==> r.error == BufferSize(8, |data|)
    ensures r.Success? ==> IsUInt32(r.value.moving) && IsUInt32(r.value.stationary)
  {
    if |data| != 8 then Failure(BufferSize(8, |data|))
    else Success(Rates(U32LE(data[0 .. 4]), U32LE(data[4 .. 8])))
  }

  /** Reading back a written payload gives the two intervals, moving first. */
  lemma RateRoundTrip(u1: int, u2: int)
    requires IsUInt32(u1) && IsUInt32(u2)
    ensures DecodeUpdateRate(EncodeUpdateRate(u1, u2).value) == Success(Rates(u1, u2))
  {
    var p := EncodeUpdateRate(u1, u2).value;
    assert p[0 .. 4] == p[..4] && p[4 .. 8] == p[4..];
  }

  /** Every 8-byte payload is the encoding of what it decodes to. */
  lemma PayloadRoundTrip(data: seq<byte>)
    requires |data| == 8
    ensures EncodeUpdateRate(DecodeUpdateRate(data).value.moving, DecodeUpdateRate(data).value.stationary) == Success(data)
  {
    LE32OfU32LE(data[0 .. 4]);
    LE32OfU32LE(data[4 .. 8]);
    assert data == data[0 .. 4] + data[4 .. 8];
  }

  /** U1 = 100 ms and U2 = 1000 ms are written as the bytes `64 00 00 00 e8 03 00 00`. */
  lemma ExamplePayload()
    ensures EncodeUpdateRate(100, 1000) == Success([0x64, 0, 0, 0, 0xe8, 0x03, 0, 0])
  {
    assert LE32(100) == [0x64, 0, 0, 0];
    assert LE32(1000) == [0xe8, 0x03, 0, 0];
    assert LE32(100) + LE32(1000) == [0x64, 0, 0, 0, 0xe8, 0x03, 0, 0];
  }

  lemma HexPeel(b: byte, s: seq<byte>)
    ensures Text.Hex([b] + s) == [Text.HexDigit(b / 16), Text.HexDigit(b % 16)] + Text.Hex(s)
  {
    assert ([b] + s)[1..] == s;
  }

  lemma HexZeros()
    ensures Text.Hex([0, 0]) == "0000"
    ensures Text.Hex([0, 0, 0]) == "000000"
  {
    assert Text.HexDigit(0) == '0';
    HexPeel(0, []);
    HexPeel(0, [0]);
    HexPeel(0, [0, 0]);
  }

  lemma HexFirstWord()
    ensures Text.Hex([0x64, 0, 0, 0]) == "64000000"
  {
    HexZeros();
    assert Text.HexDigit(6) == '6' && Text.HexDigit(4) == '4';
    HexPeel(0x64, [0, 0, 0]);
  }

  lemma HexSecondWord()
    ensures Text.Hex([0xe8, 3, 0, 0]) == "e8030000"
  {
    HexZeros();
    assert Text.HexDigit(0) == '0' && Text.HexDigit(3) == '3';
    assert Text.HexDigit(8) == '8' && Text.HexDigit(14) == 'e';
    HexPeel(3, [0, 0]);
    HexPeel(0xe8, [3, 0, 0]);
  }

  /** ... which print as `64000000e8030000`. */
  lemma ExampleHex()
    ensures Text.Hex([0x64, 0, 0, 0, 0xe8, 0x03, 0, 0]) == "64000000e8030000"
  {
    HexFirstWord();
    HexSecondWord();
    Text.HexAppend([0x64, 0, 0, 0], [0xe8, 3, 0, 0]);
    assert [0x64, 0, 0, 0] + [0xe8, 3, 0, 0] == [0x64, 0, 0, 0, 0xe8, 0x03, 0, 0];
  }
}
