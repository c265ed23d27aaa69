/**
 * The checkout dialog: its state cells (`name`, `cpf`, `loading`,
 * `qrCodeData`) as the fields of a class, and the handlers that update
 * them. The props (`productName`, `quantity`, `totalAmount`) are constants
 * of the object; the amount is in centavos.
 *
 * `HandleGenerateQrCode` runs up to the request it posts; what happens once
 * the reply arrives is not part of this model.
 */
module Checkout {
  import opened Wrappers
  import opened Text
  import opened Cpf
  import opened PixHandler

  const FillAllFields := "Preencha todos os campos"
  const InvalidCpf := "CPF inválido"

  /** What the two checks at the top of `handleGenerateQRCode` decide. */
  datatype Gate = MissingField | BadCpf | Proceed

  function SubmitGate(name: string, cpf: string): (g: Gate)
    ensures g == MissingField <==> name == "" || cpf == ""
    ensures g == BadCpf <==> name != "" && cpf != "" && |OnlyDigits(cpf)| != 11
  {
    if name == "" || cpf == "" then MissingField
    else if |OnlyDigits(cpf)| != 11 then BadCpf
    else Proceed
  }

  /** The JSON body the dialog posts. */
  function PaymentRequest(name: string, cpf: string, totalAmount: int, productName: string, quantity: int): Request {
    Request(Some(name), Some(cpf), Some(totalAmount), Some(productName), Some(quantity))
  }

  class CheckoutDialog {
    const productName: string
    const quantity: int
    const totalAmount: int
    var name: string
    var cpf: string
    var loading: bool
    var qrCodeData: Option<string>

    /** The CPF cell only ever holds text the mask leaves as it is. */
    predicate Valid()
      reads this
    {
      FormatCpf(cpf) == cpf
    }

    constructor(productName: string, quantity: int, totalAmount: int)
      ensures this.productName == productName && this.quantity == quantity && this.totalAmount == totalAmount
      ensures name == "" && cpf == "" && !loading && qrCodeData == None
      ensures Valid()
    {
      this.productName := productName;
      this.quantity := quantity;
      this.totalAmount := totalAmount;
      name := "";
      cpf := "";
      loading := false;
      qrCodeData := None;
      assert OnlyDigits("") == "";
    }

    /** Whether the form is shown rather than the QR code: `!qrCodeData`, so an empty code shows the form too. */
    predicate ShowsForm()
      reads this
    {
      qrCodeData.None? || qrCodeData.value == ""
    }

    /** The submit button is disabled while a request is under way. */
    predicate SubmitDisabled()
      reads this
    {
      loading
    }

    /** The name input's `onChange`. */
    method SetName(value: string)
      requires Valid()
      modifies this
      ensures name == value
      ensures cpf == old(cpf) && loading == old(loading) && qrCodeData == old(qrCodeData)
      ensures Valid()
    {
      name := value;
    }

    /** `handleCPFChange`: the field keeps the formatted text, which formatting again would not change. */
    method HandleCpfChange(value: string)
      modifies this
      ensures cpf == FormatCpf(value)
      ensures name == old(name) && loading == old(loading) && qrCodeData == old(qrCodeData)
      ensures Valid()
    {
      cpf := FormatCpf(value);
      FormatCpfIdempotent(value);
    }

    /**
     * `handleGenerateQRCode` up to the request: a toast and nothing else when
     * a field is empty or the CPF does not have eleven digits; otherwise the
     * button is disabled and the request is posted. Because the CPF cell only
     * ever holds masked text, a posted CPF is always the full mask.
     */
    method HandleGenerateQrCode() returns (toast: Option<string>, request: Option<Request>)
      requires Valid()
      modifies this
      ensures SubmitGate(name, cpf) == MissingField ==> toast == Some(FillAllFields) && request == None
      ensures SubmitGate(name, cpf) == BadCpf ==> toast == Some(InvalidCpf) && request == None
      ensures SubmitGate(name, cpf) == Proceed ==>
        toast == None && SubmitDisabled() && request == Some(PaymentRequest(name, cpf, totalAmount, productName, quantity))
      ensures SubmitGate(name, cpf) == Proceed ==>
        |cpf| == 14 && cpf[3] == '.' && cpf[7] == '.' && cpf[11] == '-'
        && forall i :: 0 <= i < 14 && i !in {3, 7, 11} ==> IsDigit(cpf[i])
      ensures SubmitGate(name, cpf) != Proceed ==> loading == old(loading)
      ensures name == old(name) && cpf == old(cpf) && qrCodeData == old(qrCodeData)
      ensures Valid()
    {
      if name == "" || cpf == "" {
        return Some(FillAllFields), None;
      }
      if |OnlyDigits(cpf)| != 11 {
        return Some(InvalidCpf), None;
      }
      ElevenDigitsFillMask(cpf);
      loading := true;
      request := Some(PaymentRequest(name, cpf, totalAmount, productName, quantity));
      toast := None;
    }

    /** `handleClose`: empty the form and forget the code. */
    method HandleClose()
      modifies this
      ensures name == "" && cpf == "" && qrCodeData == None
      ensures loading == old(loading)
      ensures Valid() && ShowsForm()
    {
      name := "";
      cpf := "";
      qrCodeData := None;
      assert OnlyDigits("") == "";
    }
  }

  /** A CPF field filled by typing passes the check exactly when a name is given and eleven digits were typed. */
  lemma SubmitGateOnTypedCpf(name: string, typed: string)
    ensures SubmitGate(name, FormatCpf(typed)) == Proceed <==> name != "" && |OnlyDigits(typed)| == 11
  {
    FormatCpfKeepsDigits(typed);
  }

  /** A request the dialog lets through passes the server's guard exactly when the total is not zero. */
  lemma GatedRequestPassesServerGuard(name: string, cpf: string, totalAmount: int, productName: string, quantity: int)
    requires SubmitGate(name, cpf) == Proceed
    ensures !MissingRequired(PaymentRequest(name, cpf, totalAmount, productName, quantity)) <==> totalAmount != 0
  {
  }
}
