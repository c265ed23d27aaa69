/**
 * The trailer checksum of a PIX payload (data object 63): CRC-16/CCITT-FALSE,
 * polynomial 0x1021, initial value 0xFFFF, no reflection, no final XOR.
 *
 * `Checksum` is the reference definition on a 16-bit register and bytes.
 * `CalculateCrc16` is the source's loop: its register is a JavaScript number
 * that the `<<`, `^` and `&` operators treat as a 32-bit integer, so it is
 * modelled as a `bv32` (the bit pattern of that int32); it is masked to 16
 * bits only once, after the loop, and it is fed whole character codes.
 */
module Crc16 {
  const Polynomial: bv16 := 0x1021
  const InitialValue: bv16 := 0xFFFF

  /** One bit round: shift left, folding in the polynomial when bit 15 was set. */
  function Round(r: bv16): bv16 {
    if r & 0x8000 != 0 then (r << 1) ^ Polynomial else r << 1
  }

  function Rounds(r: bv16, k: nat): bv16
    decreases k
  {
    if k == 0 then r else Rounds(Round(r), k - 1)
  }

  /** Feed one byte: XOR it into the high eight bits, then eight bit rounds. */
  function UpdateByte(r: bv16, b: bv8): bv16 {
    Rounds(r ^ ((b as bv16) << 8), 8)
  }

  /** CRC-16/CCITT-FALSE of a byte sequence (reference definition). */
  function Checksum(s: seq<bv8>): bv16 {
    if s == [] then InitialValue else UpdateByte(Checksum(s[..|s| - 1]), s[|s| - 1])
  }

  function HighByte(v: bv16): bv8 {
    (v >> 8) as bv8
  }

  function LowByteOfRegister(v: bv16): bv8 {
    (v & 0xFF) as bv8
  }

  /**
   * Feeding a register its own high byte leaves its low byte, which eight
   * rounds shift up without ever reaching bit 15 before the shift.
   */
  lemma ResidueStep(v: bv16)
    ensures UpdateByte(v, HighByte(v)) == (v & 0xFF) << 8
  {
    var w := v & 0xFF;
    assert v ^ ((HighByte(v) as bv16) << 8) == w;
    ClearRounds(w, 8);
    ClearRounds(w << 1, 7);
    ClearRounds(w << 2, 6);
    ClearRounds(w << 3, 5);
    ClearRounds(w << 4, 4);
    ClearRounds(w << 5, 3);
    ClearRounds(w << 6, 2);
    ClearRounds(w << 7, 1);
  }

  /** With bit 15 clear, the next round is a plain shift. */
  lemma ClearRounds(r: bv16, k: nat)
    requires k > 0
    ensures r & 0x8000 == 0 ==> Rounds(r, k) == Rounds(r << 1, k - 1)
  {
  }

  /** Appending a checksum, high byte first, to the bytes it covers leaves a zero register. */
  lemma {:induction false} ChecksumResidueIsZero(s: seq<bv8>)
    ensures Checksum(s + [HighByte(Checksum(s)), LowByteOfRegister(Checksum(s))]) == 0
  {
    var v := Checksum(s);
    var t := s + [HighByte(v), LowByteOfRegister(v)];
    assert t[..|t| - 1] == s + [HighByte(v)];
    assert (s + [HighByte(v)])[..|s|] == s;
    ResidueStep(v);
    assert UpdateByte((v & 0xFF) << 8, LowByteOfRegister(v)) == Rounds(0, 8) == 0;
  }

  lemma ChecksumSnoc(s: seq<bv8>, b: bv8)
    ensures Checksum(s + [b]) == UpdateByte(Checksum(s), b)
  {
    assert (s + [b])[..|s|] == s;
  }

  /** The standard's check value: the CRC of the ASCII text `123456789` is 0x29B1. */
  lemma CheckValue()
    ensures Checksum([0x31, 0x32, 0x33, 0x34, 0x35, 0x36, 0x37, 0x38, 0x39]) == 0x29B1
  {
    var s: seq<bv8> := [0x31, 0x32, 0x33, 0x34, 0x35, 0x36, 0x37, 0x38, 0x39];
    CheckValueFirstBytes();
    CheckValueMiddleBytes();
    CheckValueLastBytes();
    assert s[..1][..0] == s[..0];
    assert Checksum(s[..1]) == 0xC782;
    assert s[..2][..1] == s[..1];
    assert Checksum(s[..2]) == 0x3DBA;
    assert s[..3][..2] == s[..2];
    assert Checksum(s[..3]) == 0x5BCE;
    assert s[..4][..3] == s[..3];
    assert Checksum(s[..4]) == 0x5349;
    assert s[..5][..4] == s[..4];
    assert Checksum(s[..5]) == 0x4560;
    assert s[..6][..5] == s[..5];
    assert Checksum(s[..6]) == 0x2EF4;
    assert s[..7][..6] == s[..6];
    assert Checksum(s[..7]) == 0x7718;
    assert s[..8][..7] == s[..7];
    assert Checksum(s[..8]) == 0xA12B;
    assert s[..9][..8] == s[..8];
    assert Checksum(s[..9]) == 0x29B1;
    assert s[..9] == s;
  }

  /** The check value's per-byte register values. */
  lemma CheckValueFirstBytes()
    ensures UpdateByte(0xFFFF, 0x31) == 0xC782
    ensures UpdateByte(0xC782, 0x32) == 0x3DBA
    ensures UpdateByte(0x3DBA, 0x33) == 0x5BCE
  {
  }

  lemma CheckValueMiddleBytes()
    ensures UpdateByte(0x5BCE, 0x34) == 0x5349
    ensures UpdateByte(0x5349, 0x35) == 0x4560
    ensures UpdateByte(0x4560, 0x36) == 0x2EF4
  {
  }

  lemma CheckValueLastBytes()
    ensures UpdateByte(0x2EF4, 0x37) == 0x7718
    ensures UpdateByte(0x7718, 0x38) == 0xA12B
    ensures UpdateByte(0xA12B, 0x39) == 0x29B1
  {
  }

  // ---------------------------------------------------------------------
  // The source's register

  /** `charCodeAt`: the character's code (the UTF-16 unit for a character of the Basic Multilingual Plane). */
  function CharCode(c: char): bv32 {
    c as int as bv32
  }

  function LowByte(c: char): bv8 {
    (CharCode(c) & 0xFF) as bv8
  }

  function LowBytes(s: string): (b: seq<bv8>)
    ensures |b| == |s|
    ensures forall i :: 0 <= i < |s| ==> b[i] == LowByte(s[i])
  {
    if s == [] then [] else LowBytes(s[..|s| - 1]) + [LowByte(s[|s| - 1])]
  }

  /** One bit round as the source writes it, on the unmasked 32-bit register. */
  function SourceRound(r: bv32): bv32 {
    if r & 0x8000 != 0 then (r << 1) ^ 0x1021 else r << 1
  }

  lemma RoundWithTopBit(r: bv32)
    requires r & 0x8000 != 0
    ensures SourceRound(r) == (r << 1) ^ 0x1021
  {
  }

  lemma RoundWithoutTopBit(r: bv32)
    requires r & 0x8000 == 0
    ensures SourceRound(r) == r << 1
  {
  }

  function SourceRounds(r: bv32, k: nat): bv32
    decreases k
  {
    if k == 0 then r else SourceRounds(SourceRound(r), k - 1)
  }

  /** One pass of the outer loop: XOR `charCode << 8` into the register, then eight bit rounds. */
  function SourceFeed(r: bv32, c: char): bv32 {
    SourceRounds(r ^ (CharCode(c) << 8), 8)
  }

  /** The register after the outer loop has consumed `s`, before the final mask. */
  function SourceRegister(s: string): bv32 {
    if s == [] then 0xFFFF else SourceFeed(SourceRegister(s[..|s| - 1]), s[|s| - 1])
  }

  function Low16(r: bv32): bv16 {
    (r & 0xFFFF) as bv16
  }

  lemma MaskKeepsBit15(r: bv32)
    ensures (r & 0x8000 != 0) == (Low16(r) & 0x8000 != 0)
  {
  }

  lemma MaskCommutesWithShift(r: bv32)
    ensures Low16(r << 1) == Low16(r) << 1
  {
  }

  lemma MaskCommutesWithPolynomial(r: bv32)
    ensures Low16(r ^ 0x1021) == Low16(r) ^ Polynomial
  {
  }

  lemma RoundCommutesWithMask(r: bv32)
    ensures Low16(SourceRound(r)) == Round(Low16(r))
  {
    MaskKeepsBit15(r);
    MaskCommutesWithShift(r);
    MaskCommutesWithPolynomial(r << 1);
  }

  lemma {:induction false} RoundsCommuteWithMask(r: bv32, k: nat)
    ensures Low16(SourceRounds(r, k)) == Rounds(Low16(r), k)
    decreases k
  {
    if k > 0 {
      RoundCommutesWithMask(r);
      RoundsCommuteWithMask(SourceRound(r), k - 1);
    }
  }

  lemma FeedCommutesWithMask(r: bv32, c: char)
    ensures Low16(r ^ (CharCode(c) << 8)) == Low16(r) ^ ((LowByte(c) as bv16) << 8)
  {
  }

  lemma FeedCommutesWithMaskStep(r: bv32, c: char)
    ensures Low16(SourceFeed(r, c)) == UpdateByte(Low16(r), LowByte(c))
  {
    var fed := r ^ (CharCode(c) << 8);
    RoundsCommuteWithMask(fed, 8);
    FeedCommutesWithMask(r, c);
  }

  /**
   * Masking the register to 16 bits once, at the end, gives the CRC that
   * masks after every step; and only the low byte of each character code
   * reaches the result.
   */
  lemma {:induction false} MaskOnceAtEnd(s: string)
    ensures Low16(SourceRegister(s)) == Checksum(LowBytes(s))
  {
    if s != [] {
      var p, c := s[..|s| - 1], s[|s| - 1];
      MaskOnceAtEnd(p);
      FeedCommutesWithMaskStep(SourceRegister(p), c);
      assert LowBytes(s)[..|s| - 1] == LowBytes(p);
    }
  }
}

/**
 * The source's `calculateCRC16`: the register loop followed by the rendering
 * `crc.toString(16).toUpperCase().padStart(4, '0')`.
 */
module Crc16Text {
  import opened Text
  import opened Crc16

  /** `n.toString(16).toUpperCase().padStart(4, '0')`. */
  function UpperHex4(n: nat): string {
    PadStart(UpperCase(Hex(n)), 4, '0')
  }

  /** The rendering of the masked register that `calculateCRC16` returns. */
  function CrcText(v: bv16): string {
    UpperHex4(v as int)
  }

  lemma UpperCaseSnoc(s: string, c: char)
    ensures UpperCase(s + [c]) == UpperCase(s) + [UpperChar(c)]
  {
    assert forall i :: 0 <= i < |s| ==> (s + [c])[i] == s[i];
  }

  lemma UpperHexCharOfHexChar(d: nat)
    requires d < 16
    ensures UpperChar(HexChar(d)) == UpperHexChar(d)
    ensures UpperHexValue(UpperHexChar(d)) == d
  {
  }

  /** Upper-casing a string of lower-case hex digits leaves only upper-case hex digits. */
  lemma UpperCaseOfLowerHex(s: string)
    requires forall i :: 0 <= i < |s| ==> IsLowerHex(s[i])
    ensures forall i :: 0 <= i < |s| ==> IsUpperHex(UpperCase(s)[i])
  {
  }

  /** `toUpperCase` turns the lower-case digits of `toString(16)` into upper-case ones that spell `n`. */
  lemma {:induction false} UpperHexRoundTrip(n: nat)
    ensures forall i :: 0 <= i < |UpperCase(Hex(n))| ==> IsUpperHex(UpperCase(Hex(n))[i])
    ensures UpperHexValueOf(UpperCase(Hex(n))) == n
  {
    var u := UpperCase(Hex(n));
    UpperCaseOfLowerHex(Hex(n));
    if n >= 16 {
      var q, d := n / 16, n % 16;
      var u' := UpperCase(Hex(q));
      UpperHexRoundTrip(q);
      UpperCaseSnoc(Hex(q), HexChar(d));
      UpperHexCharOfHexChar(d);
      assert u == u' + [UpperHexChar(d)];
      assert u[..|u| - 1] == u';
      assert UpperHexValueOf(u) == UpperHexValueOf(u') * 16 + UpperHexValue(UpperHexChar(d));
      assert n == q * 16 + d;
    } else {
      UpperHexCharOfHexChar(n);
      assert u == [UpperHexChar(n)];
      assert u[..0] == [];
    }
  }

  lemma {:induction false} UpperHexLeadingZeros(z: string, s: string)
    requires forall i :: 0 <= i < |s| ==> IsUpperHex(s[i])
    requires forall i :: 0 <= i < |z| ==> z[i] == '0'
    ensures forall i :: 0 <= i < |z + s| ==> IsUpperHex((z + s)[i])
    ensures UpperHexValueOf(z + s) == UpperHexValueOf(s)
  {
    if s == [] {
      assert z + s == z;
      UpperHexZeros(z);
    } else {
      var t := z + s;
      assert t[..|t| - 1] == z + s[..|s| - 1];
      UpperHexLeadingZeros(z, s[..|s| - 1]);
    }
  }

  lemma {:induction false} UpperHexZeros(z: string)
    requires forall i :: 0 <= i < |z| ==> z[i] == '0'
    ensures forall i :: 0 <= i < |z| ==> IsUpperHex(z[i])
    ensures UpperHexValueOf(z) == 0
  {
    if z != [] {
      UpperHexZeros(z[..|z| - 1]);
    }
  }

  /** Below 0x10000 the rendering is exactly four upper-case hex digits, zero-padded, that spell the number. */
  lemma UpperHex4IsFourDigits(n: nat)
    requires n < 0x10000
    ensures |UpperHex4(n)| == 4
    ensures forall i :: 0 <= i < 4 ==> IsUpperHex(UpperHex4(n)[i])
    ensures UpperHexValueOf(UpperHex4(n)) == n
  {
    var u := UpperCase(Hex(n));
    UpperHexRoundTrip(n);
    var r := UpperHex4(n);
    PadStartIsRepeat(u, 4, '0');
    UpperHexLeadingZeros(Repeat('0', |r| - |u|), u);
  }

  /** The trailer is exactly four upper-case hex digits, zero-padded, that spell the register. */
  lemma CrcTextIsFourUpperHexDigits(v: bv16)
    ensures |CrcText(v)| == 4
    ensures forall i :: 0 <= i < 4 ==> IsUpperHex(CrcText(v)[i])
    ensures UpperHexValueOf(CrcText(v)) == v as int
  {
    UpperHex4IsFourDigits(v as int);
  }

  // ---------------------------------------------------------------------
  // The source's procedure

  /**
   * `calculateCRC16`: the nested loops over characters and bit rounds on the
   * unmasked register, one mask at the end, then the four-digit rendering.
   */
  method CalculateCrc16(payload: string) returns (text: string)
    ensures text == CrcText(Checksum(LowBytes(payload)))
    ensures |text| == 4 && forall i :: 0 <= i < 4 ==> IsUpperHex(text[i])
  {
    var crc: bv32 := 0xFFFF;
    for i := 0 to |payload|
      invariant crc == SourceRegister(payload[..i])
    {
      crc := FeedCharacter(crc, payload[i]);
      SourceRegisterSnoc(payload, i);
    }
    assert payload[..|payload|] == payload;
    MaskOnceAtEnd(payload);
    var masked := Low16(crc);
    assert masked == Checksum(LowBytes(payload));
    text := CrcText(masked);
    CrcTextIsFourUpperHexDigits(masked);
  }

  /** One pass of the outer loop of `calculateCRC16`: the XOR of the character code and the inner bit loop. */
  method FeedCharacter(register: bv32, c: char) returns (crc: bv32)
    ensures crc == SourceFeed(register, c)
  {
    crc := register ^ (CharCode(c) << 8);
    ghost var fed := crc;
    for j := 0 to 8
      invariant crc == SourceRounds(fed, j)
    {
      SourceRoundsSnoc(fed, j);
      if crc & 0x8000 != 0 {
        RoundWithTopBit(crc);
        crc := (crc << 1) ^ 0x1021;
      } else {
        RoundWithoutTopBit(crc);
        crc := crc << 1;
      }
    }
  }

  lemma SourceRegisterSnoc(s: string, i: nat)
    requires i < |s|
    ensures SourceRegister(s[..i + 1]) == SourceFeed(SourceRegister(s[..i]), s[i])
  {
    assert s[..i + 1][..i] == s[..i];
  }

  lemma {:induction false} SourceRoundsSnoc(r: bv32, k: nat)
    ensures SourceRounds(r, k + 1) == SourceRound(SourceRounds(r, k))
    decreases k
  {
    if k > 0 {
      SourceRoundsSnoc(SourceRound(r), k - 1);
    }
  }
}
