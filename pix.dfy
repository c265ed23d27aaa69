/**
 * `generatePixPayload`: the static PIX "copia e cola" text of the checkout,
 * built field by field in a fixed order and closed by a CRC-16 trailer.
 *
 * The amount is a number of reais in the source; here it is an integer
 * number of centavos, which is what `toFixed(2)` prints.
 */
module Pix {
  import opened Text
  import opened Wrappers
  import opened Tlv
  import opened Crc16
  import opened Crc16Text

  const PayloadFormatIndicator := "000201"
  const MerchantCategoryCode := "52040000"
  /** ISO 4217 code 986, the Brazilian real. */
  const TransactionCurrency := "5303986"
  const CountryCode := "5802BR"
  /** Tag and length of the CRC data object, written before the checksum is taken. */
  const CrcHeader := "6304"
  /** The globally unique identifier of the PIX arrangement, sub-tag 00 of tag 26. */
  const PixGui := "br.gov.bcb.pix"

  const MaxMerchantName := 25
  const MaxMerchantCity := 15
  const MaxDescription := 50

  // ---------------------------------------------------------------------
  // The amount

  /** The two digits after the decimal point. */
  function CentsText(c: nat): (r: string)
    requires c < 100
    ensures |r| == 2 && AllDigits(r) && DecimalValue(r) == c
  {
    var r := [DigitChar(c / 10), DigitChar(c % 10)];
    assert r[..1][..0] == [] && r[..|r| - 1] == r[..1];
    assert DecimalValue(r[..1]) == c / 10;
    r
  }

  /** `toFixed(2)` of an amount given in centavos: optional '-', the reais, '.', two digits. */
  function AmountText(cents: int): (r: string)
    ensures |r| >= 4 && r[|r| - 3] == '.' && AllDigits(r[|r| - 2..])
    ensures (|r| > 0 && r[0] == '-') <==> cents < 0
  {
    var m := if cents < 0 then -cents else cents;
    (if cents < 0 then "-" else "") + Decimal(m / 100) + "." + CentsText(m % 100)
  }

  /** A rendered amount: an optional minus sign, at least one digit, a point and exactly two digits. */
  predicate AmountShape(s: string) {
    var k := if |s| > 0 && s[0] == '-' then 1 else 0;
    |s| >= k + 4 && s[|s| - 3] == '.' && AllDigits(s[k..|s| - 3]) && AllDigits(s[|s| - 2..])
  }

  /** The number of centavos a rendered amount spells. */
  function AmountValue(s: string): int
    requires AmountShape(s)
  {
    var k := if s[0] == '-' then 1 else 0;
    var m := DecimalValue(s[k..|s| - 3]) * 100 + DecimalValue(s[|s| - 2..]);
    if k == 1 then -m else m
  }

  lemma AmountTextPieces(cents: int)
    ensures var r := AmountText(cents);
      var m := if cents < 0 then -cents else cents;
      var k := if cents < 0 then 1 else 0;
      r[k..|r| - 3] == Decimal(m / 100) && r[|r| - 2..] == CentsText(m % 100)
  {
    var m := if cents < 0 then -cents else cents;
    var sign: string := if cents < 0 then "-" else "";
    var r := AmountText(cents);
    assert r == sign + Decimal(m / 100) + "." + CentsText(m % 100);
  }

  /** Reading the rendered amount back gives the amount, to the centavo. */
  lemma AmountRoundTrip(cents: int)
    ensures AmountShape(AmountText(cents))
    ensures AmountValue(AmountText(cents)) == cents
  {
    var m := if cents < 0 then -cents else cents;
    AmountTextPieces(cents);
    DecimalRoundTrip(m / 100);
    assert m / 100 * 100 + m % 100 == m;
  }

  /** Whole amounts in reais get `.00`: 290 reais is `290.00`, 100 reais is `100.00`. */
  lemma WholeAmountExamples()
    ensures AmountText(29000) == "290.00"
    ensures AmountText(10000) == "100.00"
  {
    assert Decimal(290) == "290" by {
      assert Decimal(29) == "29" by {
        assert Decimal(2) == "2";
      }
    }
    assert Decimal(100) == "100" by {
      assert Decimal(10) == "10" by {
        assert Decimal(1) == "1";
      }
    }
    assert CentsText(0) == "00";
  }

  /** A trailing zero is kept, `12.50`, and a negative amount gets its sign, `-5.00`. */
  lemma FractionalAmountExamples()
    ensures AmountText(1250) == "12.50"
    ensures AmountText(-500) == "-5.00"
  {
    assert Decimal(12) == "12" by {
      assert Decimal(1) == "1";
    }
    assert Decimal(5) == "5";
    assert CentsText(50) == "50";
    assert CentsText(0) == "00";
  }

  // ---------------------------------------------------------------------
  // The fields

  /**
   * Tag 26 as the source writes it: the length digits say `|pixKey| + 14`,
   * while the two nested objects that follow take `|pixKey| + 22` characters.
   */
  function MerchantAccountInfo(pixKey: string): string {
    "26" + LengthText(|pixKey| + 14) + "0014" + PixGui + "01" + LengthText(|pixKey|) + pixKey
  }

  /** The nested objects of tag 26: the PIX identifier, then the key. */
  function AccountFields(pixKey: string): seq<Field> {
    [Field("00", PixGui), Field("01", pixKey)]
  }

  /** Tag 26 with its length taken from the nested objects it actually holds. */
  function MerchantAccountInfoCorrected(pixKey: string): string {
    EncodeField(Field("26", EncodeFields(AccountFields(pixKey))))
  }

  function TransactionAmount(cents: int): string {
    "54" + LengthText(|AmountText(cents)|) + AmountText(cents)
  }

  /** The merchant name upper-cased and cut to its first 25 characters. */
  function FormatMerchantName(merchantName: string): (r: string)
    ensures |r| == if |merchantName| <= MaxMerchantName then |merchantName| else MaxMerchantName
    ensures forall i :: 0 <= i < |r| ==> r[i] == UpperChar(merchantName[i])
  {
    Prefix(UpperCase(merchantName), MaxMerchantName)
  }

  /** The city upper-cased and cut to its first 15 characters. */
  function FormatMerchantCity(merchantCity: string): (r: string)
    ensures |r| == if |merchantCity| <= MaxMerchantCity then |merchantCity| else MaxMerchantCity
    ensures forall i :: 0 <= i < |r| ==> r[i] == UpperChar(merchantCity[i])
  {
    Prefix(UpperCase(merchantCity), MaxMerchantCity)
  }

  /** The description cut to its first 50 characters; its case is kept. */
  function FormatDescription(description: string): (r: string)
    ensures |r| == if |description| <= MaxDescription then |description| else MaxDescription
    ensures r == description[..|r|]
  {
    Prefix(description, MaxDescription)
  }

  function MerchantNameField(merchantName: string): string {
    var n := FormatMerchantName(merchantName);
    "59" + LengthText(|n|) + n
  }

  function MerchantCityField(merchantCity: string): string {
    var c := FormatMerchantCity(merchantCity);
    "60" + LengthText(|c|) + c
  }

  /** Tag 62 holding the reference label, sub-tag 05. */
  function AdditionalDataField(description: string): string {
    var d := FormatDescription(description);
    "62" + LengthText(|d| + 4) + "05" + LengthText(|d|) + d
  }

  /** The nine fields in their fixed order. */
  function PayloadFields(pixKey: string, merchantName: string, merchantCity: string, cents: int, description: string): string {
    PayloadFormatIndicator + (MerchantAccountInfo(pixKey) + (MerchantCategoryCode
      + (TransactionCurrency + (TransactionAmount(cents) + (CountryCode
      + (MerchantNameField(merchantName) + (MerchantCityField(merchantCity)
      + AdditionalDataField(description))))))))
  }

  /** Everything the checksum covers, up to and including `6304`. */
  function PayloadBody(pixKey: string, merchantName: string, merchantCity: string, cents: int, description: string): string {
    PayloadFields(pixKey, merchantName, merchantCity, cents, description) + CrcHeader
  }

  /** The payload: the body followed by the four-digit CRC of the body. */
  function PixPayload(pixKey: string, merchantName: string, merchantCity: string, cents: int, description: string): string {
    var body := PayloadBody(pixKey, merchantName, merchantCity, cents, description);
    body + CrcText(Checksum(LowBytes(body)))
  }

  /** `generatePixPayload`: concatenates the fields, then appends what `calculateCRC16` returns for them. */
  method GeneratePixPayload(pixKey: string, merchantName: string, merchantCity: string, cents: int, description: string)
    returns (payload: string)
    ensures payload == PixPayload(pixKey, merchantName, merchantCity, cents, description)
    ensures CrcValid(payload)
  {
    var body := PayloadBody(pixKey, merchantName, merchantCity, cents, description);
    var crc := CalculateCrc16(body);
    payload := body + crc;
    PayloadCarriesOwnCrc(pixKey, merchantName, merchantCity, cents, description);
  }

  // ---------------------------------------------------------------------
  // What a reader of the payload can rely on

  /** The last four characters are the upper-case hex CRC of everything before them. */
  predicate CrcValid(p: string) {
    |p| >= 4
    && p[|p| - 4..] == CrcText(Checksum(LowBytes(p[..|p| - 4])))
    && forall i :: |p| - 4 <= i < |p| ==> IsUpperHex(p[i])
  }

  /** Any text followed by the rendering of its own CRC passes the check. */
  lemma AppendedCrcIsValid(body: string)
    ensures var p := body + CrcText(Checksum(LowBytes(body)));
      CrcValid(p) && p[..|p| - 4] == body
  {
    var v := Checksum(LowBytes(body));
    CrcTextIsFourUpperHexDigits(v);
    var p := body + CrcText(v);
    assert p[..|p| - 4] == body;
    assert p[|p| - 4..] == CrcText(v);
    forall i | |p| - 4 <= i < |p|
      ensures IsUpperHex(p[i])
    {
      assert p[i] == CrcText(v)[i - |body|];
    }
  }

  /**
   * Stripping the four-character trailer and recomputing the CRC over the
   * rest reproduces the trailer, and the rest ends with `6304`.
   */
  lemma PayloadCarriesOwnCrc(pixKey: string, merchantName: string, merchantCity: string, cents: int, description: string)
    ensures var p := PixPayload(pixKey, merchantName, merchantCity, cents, description);
      CrcValid(p) && p[..|p| - 4] == PayloadBody(pixKey, merchantName, merchantCity, cents, description)
      && p[..|p| - 4][|p| - 8..] == CrcHeader
  {
    var fields := PayloadFields(pixKey, merchantName, merchantCity, cents, description);
    var body := fields + CrcHeader;
    AppendedCrcIsValid(body);
    assert body[|body| - 4..] == CrcHeader;
  }

  lemma PayloadStartsWithFormatIndicator(pixKey: string, merchantName: string, merchantCity: string, cents: int, description: string)
    ensures PixPayload(pixKey, merchantName, merchantCity, cents, description)[..6] == "000201"
  {
    var fields := PayloadFields(pixKey, merchantName, merchantCity, cents, description);
    var body := PayloadBody(pixKey, merchantName, merchantCity, cents, description);
    assert fields[..6] == PayloadFormatIndicator;
    PrefixOfAppend(fields, CrcHeader, 6);
    PrefixOfAppend(body, CrcText(Checksum(LowBytes(body))), 6);
  }

  /** The data objects after tag 26, in the order the payload holds them. */
  function TrailingFields(merchantName: string, merchantCity: string, cents: int, description: string): seq<Field> {
    [ Field("52", "0000"), Field("53", "986"), Field("54", AmountText(cents)), Field("58", "BR"),
      Field("59", FormatMerchantName(merchantName)), Field("60", FormatMerchantCity(merchantCity)),
      Field("62", EncodeField(Field("05", FormatDescription(description)))) ]
  }

  lemma SingleDigitLength(n: nat)
    requires n < 10
    ensures LengthText(n) == ['0', DigitChar(n)]
  {
    assert Decimal(n) == [DigitChar(n)];
  }

  /** Tag 62 is a well-formed data object whose value is the reference label object. */
  lemma AdditionalDataIsNested(description: string)
    ensures AdditionalDataField(description) == EncodeField(Field("62", EncodeField(Field("05", FormatDescription(description)))))
  {
  }

  lemma EmptyDescription()
    ensures AdditionalDataField("") == "62040500"
  {
    SingleDigitLength(0);
    SingleDigitLength(4);
  }

  /** The last trailing object, tag 62, encodes to the additional data field. */
  lemma LastTrailingField(merchantName: string, merchantCity: string, cents: int, description: string)
    ensures EncodeFields(TrailingFields(merchantName, merchantCity, cents, description)[6..])
      == AdditionalDataField(description)
  {
    var fs := TrailingFields(merchantName, merchantCity, cents, description);
    AdditionalDataIsNested(description);
    EncodeFieldsFrom(fs, 6);
    assert fs[7..] == [];
  }

  /** The last three data objects: the merchant name, the city and the additional data template. */
  lemma TrailingFieldsTail(merchantName: string, merchantCity: string, cents: int, description: string)
    ensures EncodeFields(TrailingFields(merchantName, merchantCity, cents, description)[4..])
      == MerchantNameField(merchantName) + (MerchantCityField(merchantCity) + AdditionalDataField(description))
  {
    var fs := TrailingFields(merchantName, merchantCity, cents, description);
    LastTrailingField(merchantName, merchantCity, cents, description);
    EncodeFieldsFrom(fs, 5);
    EncodeFieldsFrom(fs, 4);
  }

  /**
   * Apart from tag 26, the fields are data objects in their fixed order: the
   * format indicator, tag 26, then tags 52, 53, 54, 58, 59, 60 and 62.
   */
  lemma PayloadLayout(pixKey: string, merchantName: string, merchantCity: string, cents: int, description: string)
    ensures PayloadFields(pixKey, merchantName, merchantCity, cents, description)
      == PayloadFormatIndicator + (MerchantAccountInfo(pixKey)
         + EncodeFields(TrailingFields(merchantName, merchantCity, cents, description)))
  {
    var fs := TrailingFields(merchantName, merchantCity, cents, description);
    TrailingFieldsTail(merchantName, merchantCity, cents, description);
    CategoryCodeIsDataObject();
    CurrencyIsDataObject();
    CountryCodeIsDataObject();
    EncodeFieldsFrom(fs, 3);
    EncodeFieldsFrom(fs, 2);
    EncodeFieldsFrom(fs, 1);
    EncodeFieldsFrom(fs, 0);
    assert fs[0..] == fs;
  }

  lemma FormatIndicatorIsDataObject()
    ensures PayloadFormatIndicator == EncodeField(Field("00", "01"))
  {
    SingleDigitLength(2);
  }

  lemma CategoryCodeIsDataObject()
    ensures MerchantCategoryCode == EncodeField(Field("52", "0000"))
  {
    SingleDigitLength(4);
  }

  lemma CurrencyIsDataObject()
    ensures TransactionCurrency == EncodeField(Field("53", "986"))
  {
    SingleDigitLength(3);
  }

  lemma CountryCodeIsDataObject()
    ensures CountryCode == EncodeField(Field("58", "BR"))
  {
    SingleDigitLength(2);
  }

  // ---------------------------------------------------------------------
  // Tag 26: the length as written and the corrected encoder

  /** The length digits of tag 26 say `|pixKey| + 14`; the value after them is `|pixKey| + 22` long. */
  lemma MerchantAccountLengthAsWritten(pixKey: string)
    requires |pixKey| + 14 < 100
    ensures var m := MerchantAccountInfo(pixKey);
      |m| == 4 + |pixKey| + 22 && AllDigits(m[2..4]) && DecimalValue(m[2..4]) == |pixKey| + 14
  {
    var m := MerchantAccountInfo(pixKey);
    var len := LengthText(|pixKey| + 14);
    assert |LengthText(|pixKey|)| == 2;
    assert m[2] == len[0] && m[3] == len[1];
    assert m[2..4] == len;
  }

  /** The key the checkout handler puts in every payload. */
  const HandlerPixKey := "suachavepix@email.com"

  lemma HandlerMerchantAccount()
    ensures MerchantAccountInfo(HandlerPixKey)
      == "2635" + "0014br.gov.bcb.pix" + "0121" + "suachavepix@email.com"
  {
    assert |HandlerPixKey| == 21;
    assert Decimal(35) == "35" by { assert Decimal(3) == "3"; }
    assert Decimal(21) == "21" by { assert Decimal(2) == "2"; }
  }

  /**
   * With the handler's key, a reader that trusts the length digits of tag 26
   * stops 8 characters early, inside the key, and finds `il` where the next
   * length should be: no payload the handler builds reads as data objects.
   */
  lemma HandlerPayloadIsNotDataObjects(merchantName: string, merchantCity: string, cents: int, description: string)
    ensures ParseFields(PayloadBody(HandlerPixKey, merchantName, merchantCity, cents, description)) == None
  {
    var m := MerchantAccountInfo(HandlerPixKey);
    var fields := PayloadFields(HandlerPixKey, merchantName, merchantCity, cents, description);
    var after := fields[6..];
    assert fields == PayloadFormatIndicator + after;
    AppendAssoc(PayloadFormatIndicator, after, CrcHeader);
    FormatIndicatorIsDataObject();
    ParseFieldsCons(Field("00", "01"), after + CrcHeader);
    HandlerMerchantAccount();
    assert |m| == 47;
    assert after[..47] == m by {
      var tail := MerchantCategoryCode
        + (TransactionCurrency + (TransactionAmount(cents) + (CountryCode
        + (MerchantNameField(merchantName) + (MerchantCityField(merchantCity)
        + AdditionalDataField(description))))));
      assert after == m + tail;
      PrefixOfAppend(m, tail, 47);
    }
    PrefixOfAppend(after, CrcHeader, 47);
    NotDataObjectsAfterAccount(after + CrcHeader);
  }

  /** Tag 26 with the handler's key, followed by anything, does not read as data objects. */
  lemma NotDataObjectsAfterAccount(s: string)
    requires |s| >= 47 && s[..47] == "2635" + "0014br.gov.bcb.pix" + "0121" + "suachavepix@email.com"
    ensures ParseFields(s) == None
  {
    var lit := "2635" + "0014br.gov.bcb.pix" + "0121" + "suachavepix@email.com";
    assert s[2] == lit[2] == '3' && s[3] == lit[3] == '5';
    assert HeaderLength(s) == Some(35);
    assert s[41] == lit[41] == 'i';
    var t := s[39..];
    assert t[2] == 'i';
    assert HeaderLength(t) == None;
  }

  /** The payload as it reads once tag 26 carries the length of what it holds. */
  function PayloadBodyCorrected(pixKey: string, merchantName: string, merchantCity: string, cents: int, description: string): string {
    PayloadFormatIndicator + (MerchantAccountInfoCorrected(pixKey)
      + EncodeFields(TrailingFields(merchantName, merchantCity, cents, description))) + CrcHeader
  }

  function PixPayloadCorrected(pixKey: string, merchantName: string, merchantCity: string, cents: int, description: string): string {
    var body := PayloadBodyCorrected(pixKey, merchantName, merchantCity, cents, description);
    body + CrcText(Checksum(LowBytes(body)))
  }

  /** Every data object of the corrected payload, the checksum last. */
  function IntendedFields(pixKey: string, merchantName: string, merchantCity: string, cents: int, description: string, crc: string): seq<Field> {
    [Field("00", "01"), Field("26", EncodeFields(AccountFields(pixKey)))]
      + TrailingFields(merchantName, merchantCity, cents, description)
      + [Field("63", crc)]
  }

  /**
   * The corrected payload reads back as exactly its data objects, in order,
   * whenever the key and the amount fit a two-digit length.
   */
  lemma CorrectedPayloadIsDataObjects(pixKey: string, merchantName: string, merchantCity: string, cents: int, description: string)
    requires |pixKey| + 22 < 100
    requires |AmountText(cents)| < 100
    ensures var p := PixPayloadCorrected(pixKey, merchantName, merchantCity, cents, description);
      CrcValid(p)
      && ParseFields(p) == Some(IntendedFields(pixKey, merchantName, merchantCity, cents, description, p[|p| - 4..]))
  {
    var body := PayloadBodyCorrected(pixKey, merchantName, merchantCity, cents, description);
    var crc := CrcText(Checksum(LowBytes(body)));
    AppendedCrcIsValid(body);
    CrcTextIsFourUpperHexDigits(Checksum(LowBytes(body)));
    var p := body + crc;
    assert p[|p| - 4..] == crc;
    var fs := IntendedFields(pixKey, merchantName, merchantCity, cents, description, crc);
    CorrectedPayloadEncodes(pixKey, merchantName, merchantCity, cents, description, crc);
    IntendedFieldsWellFormed(pixKey, merchantName, merchantCity, cents, description, crc);
    ParseEncode(fs);
  }

  lemma CorrectedPayloadEncodes(pixKey: string, merchantName: string, merchantCity: string, cents: int, description: string, crc: string)
    requires |crc| == 4
    ensures EncodeFields(IntendedFields(pixKey, merchantName, merchantCity, cents, description, crc))
      == PayloadBodyCorrected(pixKey, merchantName, merchantCity, cents, description) + crc
  {
    var head := [Field("00", "01"), Field("26", EncodeFields(AccountFields(pixKey)))];
    var trailing := TrailingFields(merchantName, merchantCity, cents, description);
    var last := [Field("63", crc)];
    EncodeFieldsAppend(head + trailing, last);
    EncodeFieldsAppend(head, trailing);
    HeadFieldsEncode(pixKey);
    CrcFieldEncodes(crc);
    var a, b, c := PayloadFormatIndicator, MerchantAccountInfoCorrected(pixKey), EncodeFields(trailing);
    AppendAssoc(a, b, c);
    AppendAssoc(a + (b + c), CrcHeader, crc);
  }

  lemma HeadFieldsEncode(pixKey: string)
    ensures EncodeFields([Field("00", "01"), Field("26", EncodeFields(AccountFields(pixKey)))])
      == PayloadFormatIndicator + MerchantAccountInfoCorrected(pixKey)
  {
    var head := [Field("00", "01"), Field("26", EncodeFields(AccountFields(pixKey)))];
    FormatIndicatorIsDataObject();
    EncodeFieldsFrom(head, 0);
    EncodeFieldsFrom(head, 1);
    assert head[2..] == [];
    assert head[0..] == head;
  }

  lemma CrcFieldEncodes(crc: string)
    requires |crc| == 4
    ensures EncodeFields([Field("63", crc)]) == CrcHeader + crc
  {
    var last := [Field("63", crc)];
    EncodeFieldsFrom(last, 0);
    assert last[1..] == [];
    assert last[0..] == last;
    SingleDigitLength(4);
  }

  lemma IntendedFieldsWellFormed(pixKey: string, merchantName: string, merchantCity: string, cents: int, description: string, crc: string)
    requires |pixKey| + 22 < 100
    requires |AmountText(cents)| < 100
    requires |crc| == 4
    ensures AllWellFormed(IntendedFields(pixKey, merchantName, merchantCity, cents, description, crc))
  {
    var account := AccountFields(pixKey);
    EncodeFieldsFrom(account, 0);
    EncodeFieldsFrom(account, 1);
    assert account[2..] == [];
    assert |EncodeFields(account)| == |pixKey| + 22;
    var tf := TrailingFields(merchantName, merchantCity, cents, description);
    TrailingFieldsWellFormed(merchantName, merchantCity, cents, description);
    var fs := IntendedFields(pixKey, merchantName, merchantCity, cents, description, crc);
    forall i | 0 <= i < |fs|
      ensures WellFormed(fs[i])
    {
      if 2 <= i < 2 + |tf| {
        assert fs[i] == tf[i - 2];
      }
    }
  }

  lemma TrailingFieldsWellFormed(merchantName: string, merchantCity: string, cents: int, description: string)
    requires |AmountText(cents)| < 100
    ensures AllWellFormed(TrailingFields(merchantName, merchantCity, cents, description))
  {
    var d := FormatDescription(description);
    assert |EncodeField(Field("05", d))| == |d| + 4;
  }
}
