/**
 * The EMV tag-length-value layout of a PIX "copia e cola" payload: every data
 * object is a two-character tag, its value's length as (at least) two decimal
 * digits, then the value. `EncodeFields` is how the payload builder writes
 * its fields; `ParseFields` is the reader a bank app applies to them.
 */
module Tlv {
  import opened Text
  import opened Wrappers

  datatype Field = Field(tag: string, value: string)

  /**
   * The length digits of a data object: `n.toString().padStart(2, '0')`,
   * written as a leading zero before a single digit (`LengthTextIsPadStart`
   * shows the two agree).
   */
  function LengthText(n: nat): (r: string)
    ensures n < 100 ==> |r| == 2 && AllDigits(r) && DecimalValue(r) == n
    ensures n >= 100 ==> r == Decimal(n) && |r| > 2
  {
    var d := Decimal(n);
    DecimalRoundTrip(n);
    if n < 10 then
      DecimalValueLeadingZeros("0", d);
      "0" + d
    else if n < 100 then
      d
    else
      NoShortDecimalAbove99(n);
      d
  }

  lemma LengthTextIsPadStart(n: nat)
    ensures LengthText(n) == PadStart(Decimal(n), 2, '0')
  {
    var d := Decimal(n);
    PadStartIsRepeat(d, 2, '0');
    if n < 10 {
      assert Repeat('0', 1) == "0";
    } else {
      assert Repeat('0', 0) == [];
      assert [] + d == d;
    }
  }

  lemma NoShortDecimalAbove99(n: nat)
    requires n >= 100
    ensures |Decimal(n)| > 2
  {
    assert Decimal(n) == Decimal(n / 10) + [DigitChar(n % 10)];
  }

  /** Two decimal digits are the only two-digit spelling of their value. */
  lemma LengthTextOfDigits(t: string)
    requires |t| == 2 && AllDigits(t)
    ensures DecimalValue(t) < 100 && LengthText(DecimalValue(t)) == t
  {
    TwoDigitValue(t);
    SameTwoDigits(LengthText(DecimalValue(t)), t);
  }

  /** Two two-digit strings with the same value are the same string. */
  lemma SameTwoDigits(r: string, t: string)
    requires |r| == 2 && AllDigits(r)
    requires |t| == 2 && AllDigits(t)
    requires DecimalValue(r) == DecimalValue(t)
    ensures r == t
  {
    TwoDigitValue(r);
    TwoDigitValue(t);
    var a, b := DigitValue(t[0]), DigitValue(t[1]);
    var c, d := DigitValue(r[0]), DigitValue(r[1]);
    assert a * 10 + b == c * 10 + d;
    assert r[0] == t[0] && r[1] == t[1];
  }

  lemma TwoDigitValue(t: string)
    requires |t| == 2 && AllDigits(t)
    ensures DecimalValue(t) == DigitValue(t[0]) * 10 + DigitValue(t[1])
  {
    assert t[..1][..0] == [];
    assert t[..|t| - 1] == t[..1];
    assert DecimalValue(t[..1]) == DigitValue(t[0]);
  }

  function EncodeField(f: Field): (r: string)
    ensures |f.value| < 100 ==> |r| == |f.tag| + 2 + |f.value|
  {
    f.tag + LengthText(|f.value|) + f.value
  }

  function EncodeFields(fs: seq<Field>): string {
    if fs == [] then [] else EncodeField(fs[0]) + EncodeFields(fs[1..])
  }

  /** A data object the two-digit length can describe. */
  predicate WellFormed(f: Field) {
    |f.tag| == 2 && |f.value| < 100
  }

  predicate AllWellFormed(fs: seq<Field>) {
    forall i :: 0 <= i < |fs| ==> WellFormed(fs[i])
  }

  /**
   * The length a data object's header announces: `None` when the header is
   * cut short or its two length characters are not both digits.
   */
  function HeaderLength(s: string): (r: Option<nat>)
    ensures r.Some? <==> |s| >= 4 && IsDigit(s[2]) && IsDigit(s[3])
    ensures r.Some? ==> r.value < 100
  {
    if |s| < 4 || !IsDigit(s[2]) || !IsDigit(s[3]) then None
    else Some(DigitValue(s[2]) * 10 + DigitValue(s[3]))
  }

  /**
   * Reads a whole string as consecutive data objects; `None` when a header is
   * cut short, its length is not two digits, or the value runs past the end.
   */
  function ParseFields(s: string): (r: Option<seq<Field>>)
    decreases |s|
  {
    if s == [] then Some([])
    else match HeaderLength(s) {
      case None => None
      case Some(n) =>
        if |s| < 4 + n then None
        else match ParseFields(s[4 + n..]) {
          case None => None
          case Some(rest) => Some([Field(s[..2], s[4..4 + n])] + rest)
        }
    }
  }

  /** The header of a well-formed object announces its value's length. */
  lemma HeaderLengthOfEncoded(f: Field, rest: string)
    requires WellFormed(f)
    ensures HeaderLength(EncodeField(f) + rest) == Some(|f.value|)
  {
    var s := EncodeField(f) + rest;
    var len := LengthText(|f.value|);
    assert s[2..4] == len;
    TwoDigitValue(len);
  }

  /** An announced length is written exactly as `LengthText` writes it. */
  lemma HeaderLengthText(s: string)
    requires HeaderLength(s).Some?
    ensures LengthText(HeaderLength(s).value) == s[2..4]
  {
    var t := s[2..4];
    assert AllDigits(t);
    TwoDigitValue(t);
    LengthTextOfDigits(t);
  }

  lemma EncodeFieldsCons(f: Field, fs: seq<Field>)
    ensures EncodeFields([f] + fs) == EncodeField(f) + EncodeFields(fs)
  {
    assert ([f] + fs)[1..] == fs;
  }

  /** Reading a well-formed object followed by anything: the object, then whatever the rest reads as. */
  lemma ParseFieldsCons(f: Field, rest: string)
    requires WellFormed(f)
    ensures ParseFields(EncodeField(f) + rest)
      == match ParseFields(rest) {
           case None => None
           case Some(fs) => Some([f] + fs)
         }
  {
    var s := EncodeField(f) + rest;
    var n := |f.value|;
    HeaderLengthOfEncoded(f, rest);
    assert s[..2] == f.tag;
    assert s[4..4 + n] == f.value;
    assert s[4 + n..] == rest;
  }

  lemma EncodeFieldsFrom(fs: seq<Field>, k: nat)
    requires k < |fs|
    ensures EncodeFields(fs[k..]) == EncodeField(fs[k]) + EncodeFields(fs[k + 1..])
  {
    assert fs[k..][1..] == fs[k + 1..];
  }

  lemma {:induction false} EncodeFieldsAppend(a: seq<Field>, b: seq<Field>)
    ensures EncodeFields(a + b) == EncodeFields(a) + EncodeFields(b)
  {
    if a != [] {
      assert (a + b)[0] == a[0] && (a + b)[1..] == a[1..] + b;
      EncodeFieldsAppend(a[1..], b);
      assert EncodeFields(a + b) == EncodeField(a[0]) + (EncodeFields(a[1..]) + EncodeFields(b));
    } else {
      assert a + b == b;
    }
  }

  /** Well-formed data objects read back as exactly the objects written. */
  lemma {:induction false} ParseEncode(fs: seq<Field>)
    requires AllWellFormed(fs)
    ensures ParseFields(EncodeFields(fs)) == Some(fs)
  {
    if fs != [] {
      assert WellFormed(fs[0]);
      ParseEncode(fs[1..]);
      ParseFieldsCons(fs[0], EncodeFields(fs[1..]));
      assert [fs[0]] + fs[1..] == fs;
    }
  }

  /** What a successful parse of a non-empty string consists of: its first object, then the rest. */
  lemma ParseFieldsStep(s: string)
    requires s != [] && ParseFields(s).Some?
    ensures HeaderLength(s).Some? && |s| >= 4 + HeaderLength(s).value
    ensures var n := HeaderLength(s).value;
      ParseFields(s[4 + n..]).Some?
      && ParseFields(s).value == [Field(s[..2], s[4..4 + n])] + ParseFields(s[4 + n..]).value
  {
  }

  /** Whatever parses is made of data objects the two-digit length can describe. */
  lemma {:induction false} ParsedFieldsWellFormed(s: string)
    requires ParseFields(s).Some?
    ensures AllWellFormed(ParseFields(s).value)
    decreases |s|
  {
    if s != [] {
      ParseFieldsStep(s);
      var n := HeaderLength(s).value;
      var tail := s[4 + n..];
      ParsedFieldsWellFormed(tail);
      var f := Field(s[..2], s[4..4 + n]);
      assert WellFormed(f);
      var fs := ParseFields(s).value;
      forall i | 0 <= i < |fs|
        ensures WellFormed(fs[i])
      {
        if i > 0 {
          assert fs[i] == ParseFields(tail).value[i - 1];
        }
      }
    }
  }

  /** Whatever parses is re-encoded to the very same string. */
  lemma {:induction false} EncodeParse(s: string)
    requires ParseFields(s).Some?
    ensures EncodeFields(ParseFields(s).value) == s
    decreases |s|
  {
    if s != [] {
      ParseFieldsStep(s);
      var n := HeaderLength(s).value;
      var tail := s[4 + n..];
      var rest := ParseFields(tail).value;
      var f := Field(s[..2], s[4..4 + n]);
      calc {
        EncodeFields(ParseFields(s).value);
        EncodeFields([f] + rest);
        { EncodeFieldsCons(f, rest); }
        EncodeField(f) + EncodeFields(rest);
        { FirstFieldEncodes(s); EncodeParse(tail); }
        s[..4 + n] + tail;
        s;
      }
    }
  }

  /** The first object read from a string is written back as the characters it was read from. */
  lemma FirstFieldEncodes(s: string)
    requires HeaderLength(s).Some? && |s| >= 4 + HeaderLength(s).value
    ensures var n := HeaderLength(s).value;
      EncodeField(Field(s[..2], s[4..4 + n])) == s[..4 + n]
  {
    var n := HeaderLength(s).value;
    HeaderLengthText(s);
    assert s[..4 + n] == s[..2] + s[2..4] + s[4..4 + n];
  }
}
