# Pix checkout for a skip-hire shop, in Dafny

This project models the payment path of a small shop that rents skips
(caçambas de entulho) and takes payment through Pix, the Brazilian instant
payment scheme:

- the edge function `generate-pix-qrcode`, which checks the posted order,
  checks that the payment provider's key is configured, and answers with a
  static Pix "copia e cola" payload: EMV-style tag–length–value data
  objects followed by a CRC-16/CCITT-FALSE checksum written as four
  upper-case hexadecimal digits;
- the checkout dialog, which masks the buyer's CPF (the Brazilian
  taxpayer number) as `ddd.ddd.ddd-dd` while it is typed and refuses to
  submit without a name and an eleven-digit CPF;
- the quantity dialog, a counter that starts at 1, cannot go below 1 and
  hands the chosen quantity to the checkout.

Modules, one per concern:

| file | module | what it holds |
|---|---|---|
| `wrappers.dfy` | `Wrappers` | `Option` |
| `text.dfy` | `Text` | decimal and hexadecimal rendering, `padStart`, `substring(0, n)`, ASCII `toUpperCase` |
| `crc16.dfy` | `Crc16` | CRC-16/CCITT-FALSE over bytes, and the reference CRC, and the source's 32-bit register procedure proved equal to it |
| `crc16.dfy` | `Crc16Text` | `calculateCRC16` as a method with its two nested loops |
| `tlv.dfy` | `Tlv` | two-digit-length data objects: encoder, parser, round trips |
| `pix.dfy` | `Pix` | `generatePixPayload` and what a reader of the payload can rely on |
| `handler.dfy` | `PixHandler` | the request handler's guards and its success answer |
| `cpf.dfy` | `Cpf` | `formatCPF` as three regular-expression replacements, and the mask it produces |
| `checkout.dfy` | `Checkout` | the checkout dialog's state and handlers, as a class |
| `quantity.dfy` | `Quantity` | the quantity dialog's state and handlers, as a class |

Money is modelled as an integer number of centavos. `amount.toFixed(2)`
is then the exact decimal rendering of that integer divided by 100. The
source prints the same text for amounts with at most two decimals as long
as the double nearest to the amount rounds back to it, which holds below
about 7×10^13 reais; above that the double's precision runs out (see
"## Left out").

The CRC is specified twice. `Crc16.Checksum` is the textbook
CRC-16/CCITT-FALSE over 16-bit values (initial value 0xFFFF, polynomial
0x1021, no reflection, no final XOR). `Crc16.SourceRegister` is the
source's own procedure on a 32-bit register that is only masked to 16
bits after the last character. `Crc16.MaskOnceAtEnd` proves the two agree,
so masking once at the end is the same as masking after every step and
only the low byte of each character code matters.

## Model

| member | source | states |
|---|---|---|
| `Crc16Text.CalculateCrc16` | supabase/functions/generate-pix-qrcode/index.ts:66-83 | the returned text is the CRC-16/CCITT-FALSE of the low bytes of the payload's character codes, rendered as exactly four upper-case hexadecimal digits |
| `Crc16Text.FeedCharacter` | supabase/functions/generate-pix-qrcode/index.ts:70-78 | one pass of the outer loop: XOR the character code shifted left by 8 into the register, then eight shift-and-conditional-XOR rounds |
| `Crc16.Checksum` | supabase/functions/generate-pix-qrcode/index.ts:66-83 | the reference CRC-16/CCITT-FALSE: start at 0xFFFF and apply one byte update per byte, in order |
| `Crc16.SourceRound` | supabase/functions/generate-pix-qrcode/index.ts:73-77 | one inner round on the 32-bit register: shift left, and XOR in 0x1021 when bit 15 was set |
| `Crc16.SourceFeed` | supabase/functions/generate-pix-qrcode/index.ts:70-78 | one outer step: XOR in the character code shifted left by 8, then eight rounds |
| `Crc16.SourceRegister` | supabase/functions/generate-pix-qrcode/index.ts:67-79 | the register after the outer loop, started at 0xFFFF and fed every character in order, before the final mask |
| `Crc16.MaskOnceAtEnd` | supabase/functions/generate-pix-qrcode/index.ts:67-81 | the 32-bit register masked to 16 bits after the loop equals the 16-bit CRC computed with a mask after every step, over the low bytes only |
| `Crc16.RoundsCommuteWithMask` | supabase/functions/generate-pix-qrcode/index.ts:72-78 | masking to 16 bits before or after any number of rounds gives the same value |
| `Crc16.FeedCommutesWithMaskStep` | supabase/functions/generate-pix-qrcode/index.ts:70-78 | one source step, masked, is one byte update of the 16-bit CRC with the character's low byte |
| `Crc16.RoundWithTopBit` | supabase/functions/generate-pix-qrcode/index.ts:73-74 | when bit 15 is set, a round shifts left and XORs in 0x1021 |
| `Crc16.RoundWithoutTopBit` | supabase/functions/generate-pix-qrcode/index.ts:75-76 | when bit 15 is clear, a round only shifts left |
| `Crc16.ChecksumResidueIsZero` | supabase/functions/generate-pix-qrcode/index.ts:66-83 | appending a message's CRC, high byte first, gives a message whose CRC is zero |
| `Crc16.CheckValue` | supabase/functions/generate-pix-qrcode/index.ts:66-83 | the CRC of the ASCII text `123456789` is 0x29B1, the check value of CRC-16/CCITT-FALSE |
| `Crc16.ChecksumSnoc` | supabase/functions/generate-pix-qrcode/index.ts:69-79 | the CRC of a message extended by one byte is one byte update of the CRC of the message |
| `Crc16.LowBytes` | supabase/functions/generate-pix-qrcode/index.ts:70 | one byte per character, the low eight bits of its code |
| `Crc16Text.CrcTextIsFourUpperHexDigits` | supabase/functions/generate-pix-qrcode/index.ts:82 | `toString(16).toUpperCase().padStart(4, '0')` of a 16-bit value is four upper-case hex digits that read back as that value |
| `Crc16Text.UpperHex4IsFourDigits` | supabase/functions/generate-pix-qrcode/index.ts:82 | for any value below 0x10000 the padded upper-case hex rendering has four digits and reads back as the value |
| `Crc16Text.UpperHexRoundTrip` | supabase/functions/generate-pix-qrcode/index.ts:82 | upper-cased `toString(16)` has only upper-case hex digits and reads back as the number |
| `Crc16Text.UpperHexLeadingZeros` | supabase/functions/generate-pix-qrcode/index.ts:82 | zeros that `padStart` puts in front do not change the value read back |
| `Text.PadStart` | supabase/functions/generate-pix-qrcode/index.ts:28 | `padStart` never truncates: the result is as long as the text or the width, whichever is larger, ends with the text, and holds only the pad character before it |
| `Text.PadStartIsRepeat` | supabase/functions/generate-pix-qrcode/index.ts:28 | the padded text is the pad character repeated as often as needed, followed by the text |
| `Text.Decimal` | supabase/functions/generate-pix-qrcode/index.ts:28 | `toString()` of a natural number is a non-empty run of decimal digits, at most two below 100 |
| `Text.DecimalRoundTrip` | supabase/functions/generate-pix-qrcode/index.ts:28 | the decimal rendering reads back as the number |
| `Text.Prefix` | supabase/functions/generate-pix-qrcode/index.ts:44-52 | `substring(0, n)` has the text's length or `n`, whichever is smaller, and is the start of the text |
| `Text.UpperCase` | supabase/functions/generate-pix-qrcode/index.ts:44-48 | `toUpperCase` keeps the length and upper-cases each character in place |
| `Text.Hex` | supabase/functions/generate-pix-qrcode/index.ts:82 | `toString(16)` of a natural number is a non-empty run of lower-case hex digits, at most four below 0x10000 |
| `Tlv.LengthText` | supabase/functions/generate-pix-qrcode/index.ts:28 | a length below 100 is written as two digits that read back as it; 100 or more is written unpadded and longer than two digits |
| `Tlv.LengthTextIsPadStart` | supabase/functions/generate-pix-qrcode/index.ts:28 | the length digits are exactly `n.toString().padStart(2, '0')` |
| `Tlv.LengthTextOfDigits` | supabase/functions/generate-pix-qrcode/index.ts:45 | every two-digit length field is the rendering of the number it reads as |
| `Tlv.EncodeField` | supabase/functions/generate-pix-qrcode/index.ts:45 | a data object whose value is shorter than 100 takes its tag's length plus two plus its value's length |
| `Tlv.ParseEncode` | supabase/functions/generate-pix-qrcode/index.ts:56-58 | data objects with two-character tags and values shorter than 100 are read back from their concatenation exactly |
| `Tlv.EncodeParse` | supabase/functions/generate-pix-qrcode/index.ts:56-58 | text that reads as data objects is exactly their concatenation |
| `Tlv.ParsedFieldsWellFormed` | supabase/functions/generate-pix-qrcode/index.ts:56-58 | every object read from text has a two-character tag and a value shorter than 100 |
| `Tlv.EncodeFieldsAppend` | supabase/functions/generate-pix-qrcode/index.ts:56-58 | encoding two lists of objects one after the other is encoding their concatenation |
| `Pix.GeneratePixPayload` | supabase/functions/generate-pix-qrcode/index.ts:17-64 | the payload is the nine fields in order, then `6304`, then the four-digit CRC of everything before it, and its CRC checks |
| `Pix.PixPayload` | supabase/functions/generate-pix-qrcode/index.ts:61-63 | the payload is the body followed by the rendered CRC of the body |
| `Pix.PayloadBody` | supabase/functions/generate-pix-qrcode/index.ts:56-58 | the body is the nine fields followed by `6304` |
| `Pix.PayloadFields` | supabase/functions/generate-pix-qrcode/index.ts:56-58 | the nine fields in the order the source concatenates them |
| `Pix.MerchantAccountInfo` | supabase/functions/generate-pix-qrcode/index.ts:28 | tag 26 as written: the key's length plus 14 as its length, then `0014br.gov.bcb.pix`, `01`, the key's length and the key |
| `Pix.TransactionAmount` | supabase/functions/generate-pix-qrcode/index.ts:37-38 | tag 54: the length of the `toFixed(2)` text, then the text |
| `Pix.MerchantNameField` | supabase/functions/generate-pix-qrcode/index.ts:44-45 | tag 59: the length of the formatted name, then the name |
| `Pix.MerchantCityField` | supabase/functions/generate-pix-qrcode/index.ts:48-49 | tag 60: the length of the formatted city, then the city |
| `Pix.AdditionalDataField` | supabase/functions/generate-pix-qrcode/index.ts:52-53 | tag 62: the description's length plus 4, then `05`, the description's length and the description |
| `Pix.PayloadCarriesOwnCrc` | supabase/functions/generate-pix-qrcode/index.ts:56-63 | the last four characters are the CRC of all that precedes them, which ends with `6304` |
| `Pix.AppendedCrcIsValid` | supabase/functions/generate-pix-qrcode/index.ts:61-63 | any text followed by its own rendered CRC passes the CRC check and gives back the text |
| `Pix.PayloadStartsWithFormatIndicator` | supabase/functions/generate-pix-qrcode/index.ts:25 | every payload starts with `000201` |
| `Pix.PayloadLayout` | supabase/functions/generate-pix-qrcode/index.ts:56-58 | the payload body is `000201`, the merchant account field, then tags 52, 53, 54, 58, 59, 60 and 62 as data objects, in that order |
| `Pix.FormatIndicatorIsDataObject` | supabase/functions/generate-pix-qrcode/index.ts:25 | `000201` is tag 00 with value `01` |
| `Pix.CategoryCodeIsDataObject` | supabase/functions/generate-pix-qrcode/index.ts:31 | `52040000` is tag 52 with value `0000` |
| `Pix.CurrencyIsDataObject` | supabase/functions/generate-pix-qrcode/index.ts:34 | `5303986` is tag 53 with value `986` (BRL) |
| `Pix.CountryCodeIsDataObject` | supabase/functions/generate-pix-qrcode/index.ts:41 | `5802BR` is tag 58 with value `BR` |
| `Pix.FormatMerchantName` | supabase/functions/generate-pix-qrcode/index.ts:44 | the merchant name is upper-cased character by character and cut to its first 25 characters |
| `Pix.FormatMerchantCity` | supabase/functions/generate-pix-qrcode/index.ts:48 | the city is upper-cased character by character and cut to its first 15 characters |
| `Pix.FormatDescription` | supabase/functions/generate-pix-qrcode/index.ts:52 | the description is a prefix of the product name of at most 50 characters, not upper-cased |
| `Pix.AdditionalDataIsNested` | supabase/functions/generate-pix-qrcode/index.ts:53 | tag 62 holds exactly one data object, tag 05 with the description, so its length is the description's plus four |
| `Pix.EmptyDescription` | supabase/functions/generate-pix-qrcode/index.ts:53 | an empty product name gives `62040500` |
| `Pix.SingleDigitLength` | supabase/functions/generate-pix-qrcode/index.ts:45 | a length below 10 is written with a leading zero |
| `Pix.CentsText` | supabase/functions/generate-pix-qrcode/index.ts:37 | the two decimals of `toFixed(2)` are two digits that read back as the centavos |
| `Pix.AmountText` | supabase/functions/generate-pix-qrcode/index.ts:37 | `toFixed(2)` ends in a point and two digits, and starts with `-` exactly for negative amounts |
| `Pix.AmountTextPieces` | supabase/functions/generate-pix-qrcode/index.ts:37 | `toFixed(2)` is the optional sign, the whole reais in decimal, a point, and the centavos in two digits |
| `Pix.AmountRoundTrip` | supabase/functions/generate-pix-qrcode/index.ts:37-38 | the amount text always has the shape sign, digits, point, two digits, and reads back as the amount |
| `Pix.WholeAmountExamples` | supabase/functions/generate-pix-qrcode/index.ts:37 | 290 reais are written `290.00` and 100 reais `100.00` |
| `Pix.FractionalAmountExamples` | supabase/functions/generate-pix-qrcode/index.ts:37 | 12.5 reais are written `12.50` and -5 reais `-5.00` |
| `Pix.MerchantAccountLengthAsWritten` | supabase/functions/generate-pix-qrcode/index.ts:28 | tag 26's length digits say the key's length plus 14, while the key's length plus 22 characters follow them |
| `Pix.HandlerMerchantAccount` | supabase/functions/generate-pix-qrcode/index.ts:28 | with the handler's key, tag 26 is written `2635` followed by 43 characters |
| `Pix.HandlerPayloadIsNotDataObjects` | supabase/functions/generate-pix-qrcode/index.ts:28 | with the handler's key, no payload body the function produces reads as a sequence of data objects |
| `Pix.NotDataObjectsAfterAccount` | supabase/functions/generate-pix-qrcode/index.ts:28 | text starting with that tag 26 does not read as data objects: after the 35 characters the length announces, the next length is `il` |
| `Pix.CorrectedPayloadIsDataObjects` | supabase/functions/generate-pix-qrcode/index.ts:17-64 | with tag 26's length counting its whole value, the payload passes the CRC check and reads back as exactly the intended ten data objects (tags 00, 26, 52, 53, 54, 58, 59, 60, 62 and 63) |
| `Pix.CorrectedPayloadEncodes` | supabase/functions/generate-pix-qrcode/index.ts:56-58 | the corrected payload body plus the CRC is the encoding of the intended objects |
| `Pix.IntendedFieldsWellFormed` | supabase/functions/generate-pix-qrcode/index.ts:17-58 | all intended objects have two-character tags and values shorter than 100 when the key and amount are short enough |
| `Pix.TrailingFieldsWellFormed` | supabase/functions/generate-pix-qrcode/index.ts:31-53 | tags 52 to 62 have two-character tags and values shorter than 100 whenever the amount text is |
| `PixHandler.HandleRequest` | supabase/functions/generate-pix-qrcode/index.ts:91-205 | 400 `Missing required fields` exactly when name, CPF or amount is falsy; 500 `Payment system not configured` when the key is unset or empty; 200 with the static payload for the posted amount and product name and the fixed message exactly when the order and the key are present and a product name was posted; a body that is not JSON, and a missing product name, end in the 500 `Internal server error` catch-all; no other status |
| `PixHandler.QrCodeAnswer` | supabase/functions/generate-pix-qrcode/index.ts:166-188 | the success answer carries the payload for the hard-coded key, merchant name and city, and that payload's CRC checks |
| `PixHandler.MissingRequired` | supabase/functions/generate-pix-qrcode/index.ts:97 | the 400 guard: name, CPF or amount is falsy |
| `Cpf.OnlyDigits` | src/components/CheckoutDialog.tsx:30 | removing the non-digits leaves only digits, no more of them than characters typed |
| `Cpf.OnlyDigitsAppend` | src/components/CheckoutDialog.tsx:30 | removing non-digits works piece by piece |
| `Cpf.InsertPoint` | src/components/CheckoutDialog.tsx:33-34 | `replace(/(\d{3})(\d)/, "$1.$2")`: a point after the first three digits of the leftmost run of four, or no change |
| `Cpf.HyphenPosition` | src/components/CheckoutDialog.tsx:35 | where `(\d{3})(\d{1,2})$` matches: before the last two digits when five digits end the text, before the last one when only four do |
| `Cpf.InsertHyphen` | src/components/CheckoutDialog.tsx:35 | a hyphen at that position, or no change |
| `Cpf.FormatCpf` | src/components/CheckoutDialog.tsx:29-38 | `formatCPF`: the three replacements on the digits when there are at most eleven, otherwise the value as typed |
| `Cpf.LeftmostFourDigits` | src/components/CheckoutDialog.tsx:33-34 | the match of `(\d{3})(\d)` is the leftmost run of four digits, or none |
| `Cpf.FirstPoint` | src/components/CheckoutDialog.tsx:33 | on digits, the first replacement puts a point after the third digit when there are at least four |
| `Cpf.SecondPoint` | src/components/CheckoutDialog.tsx:34 | after `ddd.` the second replacement puts a point after the next three digits when a seventh follows |
| `Cpf.Hyphen` | src/components/CheckoutDialog.tsx:35 | the anchored replacement puts a hyphen after the ninth digit exactly when ten or eleven digits were typed |
| `Cpf.ReplacementsAreMask` | src/components/CheckoutDialog.tsx:32-35 | on at most eleven digits the three replacements give the mask `ddd.ddd.ddd-dd` filled as far as the digits go |
| `Cpf.FormatCpfIsMask` | src/components/CheckoutDialog.tsx:29-36 | with at most eleven digits typed, the field shows them in the mask whatever else was typed |
| `Cpf.FormatCpfKeepsLongInput` | src/components/CheckoutDialog.tsx:37 | with more than eleven digits the value is returned as typed |
| `Cpf.MaskDigits` | src/components/CheckoutDialog.tsx:32-35 | removing the points and hyphen from the mask gives back the digits |
| `Cpf.FormatCpfKeepsDigits` | src/components/CheckoutDialog.tsx:29-38 | the formatted value has exactly the digits that were typed, in order |
| `Cpf.FormatCpfIdempotent` | src/components/CheckoutDialog.tsx:29-38 | formatting a formatted value changes nothing |
| `Cpf.ElevenDigitsFillMask` | src/components/CheckoutDialog.tsx:29-38 | eleven digits give fourteen characters: points at 3 and 7, a hyphen at 11, digits elsewhere |
| `Cpf.FullMask` | src/components/CheckoutDialog.tsx:32-35 | the full mask over eleven digits has fourteen characters, points at 3 and 7, a hyphen at 11 and digits elsewhere |
| `Cpf.ShortInputIsBare` | src/components/CheckoutDialog.tsx:32-35 | up to three digits are shown bare |
| `Cpf.MaskFitsField` | src/components/CheckoutDialog.tsx:137 | a masked value never exceeds the input's `maxLength` of 14 |
| `Checkout.SubmitGate` | src/components/CheckoutDialog.tsx:45-53 | the first check fails exactly when name or CPF is empty, the second exactly when both are present and the CPF does not hold eleven digits |
| `Checkout.CheckoutDialog.constructor` | src/components/CheckoutDialog.tsx:24-27 | the dialog starts with empty name and CPF, not loading and no QR code |
| `Checkout.CheckoutDialog.SetName` | src/components/CheckoutDialog.tsx:125 | typing a name sets it and nothing else, keeping the CPF cell masked |
| `Checkout.CheckoutDialog.HandleCpfChange` | src/components/CheckoutDialog.tsx:40-42 | the CPF cell holds the formatted input, which formatting again leaves unchanged; nothing else changes |
| `Checkout.CheckoutDialog.HandleGenerateQrCode` | src/components/CheckoutDialog.tsx:44-55 | an empty field gives `Preencha todos os campos` and a CPF without eleven digits `CPF inválido`, and neither sends anything nor changes state; otherwise loading is switched on, which disables the button, and the order with the total amount is posted; a posted CPF is always the full `ddd.ddd.ddd-dd` mask, because the CPF cell only ever holds masked text |
| `Checkout.CheckoutDialog.HandleClose` | src/components/CheckoutDialog.tsx:92-97 | closing empties name and CPF and forgets the code, so the form shows again |
| `Checkout.SubmitGateOnTypedCpf` | src/components/CheckoutDialog.tsx:40-53 | a CPF that came through the mask passes the check exactly when eleven digits were typed |
| `Checkout.GatedRequestPassesServerGuard` | src/components/CheckoutDialog.tsx:65-71 | an order the dialog sends passes the server's 400 guard exactly when its total is not zero |
| `Quantity.RunKeepsPositive` | src/components/QuantityDialog.tsx:21-34 | from 1, any sequence of clicks leaves the quantity at 1 or more |
| `Quantity.Step` | src/components/QuantityDialog.tsx:23-34 | one click: minus lowers the quantity only above 1, plus raises it by one, confirm resets it to 1 |
| `Quantity.Total` | src/components/QuantityDialog.tsx:36 | the total is the unit price times the quantity |
| `Quantity.StepKeepsPositive` | src/components/QuantityDialog.tsx:23-34 | no single click takes a positive quantity below 1 |
| `Quantity.DecreaseDisabledExactlyWhenNoOp` | src/components/QuantityDialog.tsx:23-25 | the minus button is disabled exactly when a click on it would change nothing |
| `Quantity.DecreaseUndoesIncrease` | src/components/QuantityDialog.tsx:23-29 | minus after plus gives the quantity back |
| `Quantity.IncreasesCount` | src/components/QuantityDialog.tsx:27-29 | n clicks on plus add n, without an upper bound |
| `Quantity.TotalFollowsClicks` | src/components/QuantityDialog.tsx:36 | plus adds one unit price to the total, minus above 1 takes one away |
| `Quantity.TotalPositive` | src/components/QuantityDialog.tsx:36 | for every price and quantity: with a positive price and a quantity of at least 1 the total is at least the price |
| `Quantity.QuantityDialog.constructor` | src/components/QuantityDialog.tsx:21 | the counter starts at 1 |
| `Quantity.QuantityDialog.ShownTotal` | src/components/QuantityDialog.tsx:36 | the shown total is at least the unit price whenever the price is positive and the quantity at least 1 |
| `Quantity.QuantityDialog.HandleDecrease` | src/components/QuantityDialog.tsx:23-25 | minus lowers the quantity by one only when it is above 1, and changes nothing exactly when the button is disabled; the counter stays at 1 or more |
| `Quantity.QuantityDialog.HandleIncrease` | src/components/QuantityDialog.tsx:27-29 | plus raises the quantity by one, keeping the counter at 1 or more |
| `Quantity.QuantityDialog.HandleConfirm` | src/components/QuantityDialog.tsx:31-34 | confirming hands on the current quantity, which is at least 1, and resets the counter to 1 |

## Left out

- The HTTP plumbing of the edge function: CORS headers, the `OPTIONS` preflight, response headers and JSON serialisation. The handler answers with a status and a body value.
- The environment variable `PODPAY_API_KEY` is a parameter of `PixHandler.HandleRequest`; reading the environment is not modelled.
- `paymentId` (`ORDER-` followed by the current time) and the `success: true` flag are not in the modelled response body, because the clock is outside the model.
- Logging through `console.log` and `console.error`.
- The call to the Podpay API exists only as a comment in the source and is not modelled.
- PixHandler.HandleRequest: in the catch-all 500 the `message` field with the exception text is not modelled; only the status and the `Internal server error` error are.
- PixHandler.HandleRequest: posted values of the wrong JSON type (a number as name, text as amount) are not modelled; a field is either absent or of the declared type.
- Floating-point amounts: the model works in whole centavos, so `toFixed(2)` rounding of amounts with more than two decimals, the precision lost by doubles from about 7×10^13 reais up (70368744177664.01 is stored as 70368744177664.015625 and printed `70368744177664.02`), and the exponential form for amounts of 10^21 and above, are not modelled.
- `toUpperCase` is modelled for ASCII letters only; other characters are left unchanged, whereas JavaScript also upper-cases accented letters and may change a string's length (ß to SS).
- JavaScript strings are UTF-16; a character outside the Basic Multilingual Plane is two code units there and one `char` here, which changes `length`, `substring` and the bytes fed to the CRC for such text.
- Crc16.MaskOnceAtEnd: the 32-bit register is modelled as an unsigned `bv32`; JavaScript's `<<` produces a signed 32-bit integer, which has the same low 16 bits, and only those are kept.
- The `fetch` in `handleGenerateQRCode` and everything after it (the reply, `setQrCodeData`, the toasts on success and failure, and `setLoading(false)` in `finally`) are not modelled; `Checkout.CheckoutDialog.HandleGenerateQrCode` ends with the order it posts.
- The QR image, which the dialog obtains from an external image service, and all other rendering of the dialogs.
- The browser enforcing the CPF input's `maxLength`; only the fact that a masked value fits it is proved.
- The `onOpenChange` and `onConfirm` callbacks of the dialogs are not modelled beyond returning the confirmed quantity.
- Quantity.QuantityDialog: the unit price is an integer number of centavos; the source multiplies a floating-point price.
- Administration pages, the password check for them, the product cards and the page that wires the dialogs together are outside this model.

## Findings

| source | as written | input that shows it | evidently intended | confidence | as-written member | corrected member |
|---|---|---|---|---|---|---|
| supabase/functions/generate-pix-qrcode/index.ts:28 | the length of tag 26 is written as the key's length plus 14, but the value that follows is `0014br.gov.bcb.pix` (18 characters), `01`, two length digits and the key, so the key's length plus 22 characters | the handler's own key `suachavepix@email.com` (21 characters): the field starts `2635` and 43 characters follow, so a reader of the payload takes `0014br.gov.bcb.pix0121suachavepix@e` as tag 26, then `ma` as the next tag, and finds `il` where its length is due | tag 26's length is the key's length plus 22, so that the whole payload reads as data objects | not executed | `Pix.HandlerPayloadIsNotDataObjects` | `Pix.CorrectedPayloadIsDataObjects` |

`Pix.MerchantAccountLengthAsWritten` states the mismatch for every key shorter than 86 characters.
`Pix.MerchantAccountInfoCorrected` writes tag 26 as a nested data object
whose length counts its whole value. The handler keeps the encoder as
written, because that is the payload the function returns; the corrected
encoder is used only by `Pix.PixPayloadCorrected` and the lemmas about it.
