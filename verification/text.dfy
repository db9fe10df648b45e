/**
  The textual renderings the gateway prints and stores: `bytes.hex()`,
  `bytes.fromhex()`, `format(b, "08b")`, `bin(b)[2:].zfill(8)`, and the two
  ways the scripts join per-byte bit strings (`raw_to_bits` in location.py and
  utils.py, and `bytearray_to_binary_list` in main.py and test.py).
 */
module Text {
  import opened Bytes
  import opened Wrappers

  // ---------------------------------------------------------------- hex

  const HEX_DIGITS: string := "0123456789abcdef"

  function HexDigit(n: nat): char
    requires n < 16
  {
    HEX_DIGITS[n]
  }

  /** The value of one hexadecimal digit, either case, as `bytes.fromhex` reads it. */
  function HexValue(c: char): Option<nat>
  {
    if '0' <= c <= '9' then Some(c as int - '0' as int)
    else if 'a' <= c <= 'f' then Some(c as int - 'a' as int + 10)
    else if 'A' <= c <= 'F' then Some(c as int - 'A' as int + 10)
    else None
  }

  /** `bytes.hex()`: two lower-case digits per byte, high nibble first. */
  function Hex(s: seq<byte>): (r: string)
    ensures |r| == 2 * |s|
    ensures forall i :: 0 <= i < |r| ==> r[i] in HEX_DIGITS
  {
    if s == [] then "" else [HexDigit(s[0] / 16), HexDigit(s[0] % 16)] + Hex(s[1..])
  }

  /** The ASCII whitespace `bytes.fromhex` skips between digit pairs. */
  predicate IsSpace(c: char)
  {
    c == ' ' || c == '\t' || c == '\n' || c == '\r' || c == '\U{0B}' || c == '\U{0C}'
  }

  /**
    `bytes.fromhex(t)`: whitespace may separate byte pairs but not split one;
    any other character, or an odd digit at the end, is rejected.
   */
  function FromHex(t: string): (r: Result<seq<byte>>)
    ensures r.Success? ==> 2 * |r.value| <= |t|
    ensures r.Failure? ==> r.error == NotHex
    decreases |t|
  {
    if t == [] then Success([])
    else if IsSpace(t[0]) then FromHex(t[1..])
    else if |t| < 2 then Failure(NotHex)
    else match (HexValue(t[0]), HexValue(t[1]))
      case (Some(hi), Some(lo)) =>
        (match FromHex(t[2..])
         case Success(rest) => Success([16 * hi + lo] + rest)
         case Failure(e) => Failure(e))
      case _ => Failure(NotHex)
  }

  lemma HexValueOfDigit(n: nat)
    requires n < 16
    ensures HexValue(HexDigit(n)) == Some(n)
    ensures !IsSpace(HexDigit(n))
  {
  }

  /** Two digits written for a byte are read back as that byte, ahead of whatever follows. */
  lemma FromHexStep(b: byte, rest: string)
    ensures FromHex([HexDigit(b / 16), HexDigit(b % 16)] + rest) ==
      match FromHex(rest)
      case Success(v) => Success([b] + v)
      case Failure(e) => Failure(e)
  {
    var t := [HexDigit(b / 16), HexDigit(b % 16)] + rest;
    HexValueOfDigit(b / 16);
    HexValueOfDigit(b % 16);
    assert t[0] == HexDigit(b / 16) && t[1] == HexDigit(b % 16);
    assert t[2..] == rest;
    assert 16 * (b / 16) + b % 16 == b;
  }

  /** Reading back what `bytes.hex()` wrote gives the original bytes. */
  lemma {:induction false} FromHexOfHex(s: seq<byte>)
    ensures FromHex(Hex(s)) == Success(s)
  {
    if s != [] {
      FromHexOfHex(s[1..]);
      FromHexStep(s[0], Hex(s[1..]));
      assert [s[0]] + s[1..] == s;
    }
  }

  /** `bytes.hex()` is injective: different bytes never print alike. */
  lemma HexInjective(a: seq<byte>, b: seq<byte>)
    requires Hex(a) == Hex(b)
    ensures a == b
  {
    FromHexOfHex(a);
    FromHexOfHex(b);
  }

  /** `bytes.hex()` of a concatenation is the concatenation of the hex texts. */
  lemma {:induction false} HexAppend(a: seq<byte>, b: seq<byte>)
    ensures Hex(a + b) == Hex(a) + Hex(b)
  {
    if a != [] {
      var d := [HexDigit(a[0] / 16), HexDigit(a[0] % 16)];
      assert (a + b)[0] == a[0];
      assert (a + b)[1..] == a[1..] + b;
      HexAppend(a[1..], b);
      calc {
        Hex(a + b);
        d + Hex(a[1..] + b);
        d + (Hex(a[1..]) + Hex(b));
        (d + Hex(a[1..])) + Hex(b);
        Hex(a) + Hex(b);
      }
    } else {
      assert a + b == b;
    }
  }

  // ---------------------------------------------------------------- bits

  function Pow2(k: nat): (r: nat)
    ensures r >= 1
  {
    if k == 0 then 1 else 2 * Pow2(k - 1)
  }

  function BitChar(bit: nat): char
    requires bit < 2
  {
    if bit == 1 then '1' else '0'
  }

  predicate IsBitChar(c: char) { c == '0' || c == '1' }

  /** The number a string of '0'/'1' characters spells, most significant first. */
  function BitsValue(s: string): nat
  {
    if s == [] then 0
    else 2 * BitsValue(s[..|s| - 1]) + (if s[|s| - 1] == '1' then 1 else 0)
  }

  /** `format(n, "0{w}b")` for `n < 2^w`: exactly `w` binary digits, most significant first. */
  function FixedBits(n: nat, w: nat): (r: string)
    ensures |r| == w
    ensures forall i :: 0 <= i < |r| ==> IsBitChar(r[i])
  {
    if w == 0 then "" else FixedBits(n / 2, w - 1) + [BitChar(n % 2)]
  }

  /** Python `bin(n)[2:]`: binary digits without leading zeros, "0" for zero. */
  function Bin(n: nat): (r: string)
    ensures |r| >= 1
  {
    if n < 2 then [BitChar(n)] else Bin(n / 2) + [BitChar(n % 2)]
  }

  function Zeros(k: nat): (r: string)
    ensures |r| == k
  {
    seq(k, _ => '0')
  }

  /** Python `s.zfill(w)` on a string without a sign: left-pad with '0' to width `w`. */
  function ZFill(s: string, w: nat): (r: string)
    ensures |r| == if |s| >= w then |s| else w
    ensures r[|r| - |s|..] == s
  {
    if |s| >= w then s else Zeros(w - |s|) + s
  }

  /** The `w` digits of `format` spell back the number (most significant first). */
  lemma {:induction false} BitsValueOfFixedBits(n: nat, w: nat)
    requires n < Pow2(w)
    ensures BitsValue(FixedBits(n, w)) == n
  {
    if w > 0 {
      var r := FixedBits(n, w);
      assert r[..|r| - 1] == FixedBits(n / 2, w - 1);
      BitsValueOfFixedBits(n / 2, w - 1);
    }
  }

  lemma {:induction false} FixedBitsOfZero(k: nat)
    ensures FixedBits(0, k) == Zeros(k)
  {
    if k > 0 {
      FixedBitsOfZero(k - 1);
      assert Zeros(k - 1) + ['0'] == Zeros(k);
    }
  }

  lemma {:induction false} FixedBitsIsPaddedBin(n: nat, w: nat)
    requires w >= 1 && n < Pow2(w)
    ensures |Bin(n)| <= w
    ensures FixedBits(n, w) == Zeros(w - |Bin(n)|) + Bin(n)
  {
    if n < 2 {
      FixedBitsOfZero(w - 1);
    } else {
      FixedBitsIsPaddedBin(n / 2, w - 1);
      assert Zeros(w - 1 - |Bin(n / 2)|) + Bin(n / 2) + [BitChar(n % 2)]
          == Zeros(w - |Bin(n)|) + Bin(n);
    }
  }

  /** `bin(b)[2:].zfill(8)` (location.py, utils.py) and `format(b, "08b")` (main.py) agree on bytes. */
  lemma ZFillBinIsFormat(b: byte)
    ensures ZFill(Bin(b), 8) == FixedBits(b, 8)
  {
    assert Pow2(8) == 256;
    FixedBitsIsPaddedBin(b, 8);
  }

  /** The eight-character rendering of one byte. */
  function ByteBits(b: byte): (r: string)
    ensures |r| == 8
    ensures BitsValue(r) == b
    ensures forall i :: 0 <= i < 8 ==> IsBitChar(r[i])
  {
    assert Pow2(8) == 256;
    BitsValueOfFixedBits(b, 8);
    FixedBits(b, 8)
  }

  // ---------------------------------------------------------------- joining

  /** `bytearray_to_binary_list`: one eight-character string per byte, in order. */
  function BinaryList(data: seq<byte>): (r: seq<string>)
    ensures |r| == |data|
    ensures forall i :: 0 <= i < |data| ==> |r[i]| == 8 && BitsValue(r[i]) == data[i]
  {
    seq(|data|, i requires 0 <= i < |data| => ByteBits(data[i]))
  }

  /** Python `sep.join(parts)` with a one-character separator. */
  function Join(parts: seq<string>, sep: char): string
  {
    if parts == [] then ""
    else if |parts| == 1 then parts[0]
    else Join(parts[..|parts| - 1], sep) + [sep] + parts[|parts| - 1]
  }

  /** Python `s.strip()` restricted to the whitespace that can occur in these strings. */
  function StripEnd(s: string): (r: string)
    ensures |r| <= |s| && r == s[..|r|]
  {
    if s != [] && IsSpace(s[|s| - 1]) then StripEnd(s[..|s| - 1]) else s
  }

  function StripStart(s: string): (r: string)
    ensures |r| <= |s| && r == s[|s| - |r|..]
  {
    if s != [] && IsSpace(s[0]) then StripStart(s[1..]) else s
  }

  function Strip(s: string): string
  {
    StripStart(StripEnd(s))
  }

  /** The string `raw_to_bits` builds before stripping: each byte's bits followed by a space. */
  function Accumulated(data: seq<byte>): string
  {
    if data == [] then ""
    else Accumulated(data[..|data| - 1]) + ZFill(Bin(data[|data| - 1]), 8) + " "
  }

  /**
    `raw_to_bits` (location.py, utils.py): the bits of every byte, most
    significant first, separated by single spaces.
   */
  function RawToBits(data: seq<byte>): (r: string)
    ensures data == [] ==> r == ""
    ensures data != [] ==> |r| == 9 * |data| - 1
    ensures forall i :: 0 <= i < |data| ==> r[9 * i .. 9 * i + 8] == ByteBits(data[i])
    ensures forall i :: 0 <= i < |data| ==> (i < |data| - 1 ==> r[9 * i + 8] == ' ')
  {
    RawToBitsIsJoin(data);
    JoinShape(BinaryList(data));
    Strip(Accumulated(data))
  }

  /** A join of eight-character strings places string `i` at `9 i`, with spaces between. */
  lemma {:induction false} JoinShape(parts: seq<string>)
    requires forall i :: 0 <= i < |parts| ==> |parts[i]| == 8
    ensures parts == [] ==> Join(parts, ' ') == ""
    ensures parts != [] ==> |Join(parts, ' ')| == 9 * |parts| - 1
    ensures forall i :: 0 <= i < |parts| ==> Join(parts, ' ')[9 * i .. 9 * i + 8] == parts[i]
    ensures forall i :: 0 <= i < |parts| ==> (i < |parts| - 1 ==> Join(parts, ' ')[9 * i + 8] == ' ')
  {
    if |parts| > 1 {
      var n := |parts|;
      var pre := parts[..n - 1];
      JoinShape(pre);
      var j := Join(parts, ' ');
      var jp := Join(pre, ' ');
      assert j == jp + [' '] + parts[n - 1];
      forall i | 0 <= i < n
        ensures j[9 * i .. 9 * i + 8] == parts[i]
        ensures i < n - 1 ==> j[9 * i + 8] == ' '
      {
        if i < n - 1 {
          assert j[9 * i .. 9 * i + 8] == jp[9 * i .. 9 * i + 8];
          if i < n - 2 {
            assert j[9 * i + 8] == jp[9 * i + 8];
          }
        }
      }
    }
  }

  lemma {:induction false} AccumulatedIsJoin(data: seq<byte>)
    requires data != []
    ensures Accumulated(data) == Join(BinaryList(data), ' ') + " "
  {
    var n := |data|;
    ZFillBinIsFormat(data[n - 1]);
    if n > 1 {
      var pre := data[..n - 1];
      AccumulatedIsJoin(pre);
      assert BinaryList(data)[..n - 1] == BinaryList(pre);
    }
  }

  /** Stripping a string that starts and ends with a non-space removes only the added final space. */
  lemma StripOfTerminated(j: string)
    requires j != [] && !IsSpace(j[0]) && !IsSpace(j[|j| - 1])
    ensures Strip(j + " ") == j
  {
    assert (j + " ")[..|j + " "| - 1] == j;
    assert StripEnd(j + " ") == j;
  }

  /** `raw_to_bits` (strip of a space-terminated build) equals `" ".join(bytearray_to_binary_list(data))`. */
  lemma RawToBitsIsJoin(data: seq<byte>)
    ensures Strip(Accumulated(data)) == Join(BinaryList(data), ' ')
  {
    if data != [] {
      AccumulatedIsJoin(data);
      var parts := BinaryList(data);
      var j := Join(parts, ' ');
      JoinShape(parts);
      var n := |data|;
      assert j[9 * (n - 1) .. 9 * (n - 1) + 8] == parts[n - 1];
      assert j[|j| - 1] == parts[n - 1][7];
      assert j[0 .. 8] == parts[0];
      assert j[0] == parts[0][0];
      StripOfTerminated(j);
    }
  }
}
