/**
 * The request handler of the `generate-pix-qrcode` function: the guard on
 * the posted fields, the check that the payment provider is configured, and
 * the static payload it answers with.
 *
 * A JSON field that is absent is `None`; a body that is not JSON is `None`
 * as a whole. The provider's key is the value of the environment variable,
 * `None` when it is unset.
 */
module PixHandler {
  import opened Wrappers
  import opened Pix

  datatype Request = Request(
    name: Option<string>,
    cpf: Option<string>,
    amount: Option<int>,
    productName: Option<string>,
    quantity: Option<int>)

  datatype ResponseBody =
    | ErrorBody(error: string)
    | QrCodeBody(qrCode: string, message: string)

  datatype Response = Response(status: int, body: ResponseBody)

  const HandlerMerchantName := "CACAMBAS DE ENTULHOS"
  const HandlerMerchantCity := "SAO PAULO"

  const MissingFields := "Missing required fields"
  const NotConfigured := "Payment system not configured"
  const InternalError := "Internal server error"
  const SuccessMessage := "QR Code gerado com sucesso. Para produção, integre com a API da Podpay."

  /** JavaScript falsiness of a text field: absent or empty. */
  predicate FalsyText(o: Option<string>) {
    o.None? || o.value == ""
  }

  /** JavaScript falsiness of an amount: absent or zero. */
  predicate FalsyAmount(o: Option<int>) {
    o.None? || o.value == 0
  }

  /** `!name || !cpf || !amount`. */
  predicate MissingRequired(r: Request) {
    FalsyText(r.name) || FalsyText(r.cpf) || FalsyAmount(r.amount)
  }

  /**
   * Answers one POST. An unreadable body and a missing product name both end
   * in the catch-all 500 (the latter because the description is cut with
   * `substring`, which an absent value does not have).
   */
  method HandleRequest(json: Option<Request>, podpayApiKey: Option<string>) returns (resp: Response)
    ensures json.None? ==> resp == Response(500, ErrorBody(InternalError))
    ensures json.Some? && MissingRequired(json.value) ==> resp == Response(400, ErrorBody(MissingFields))
    ensures resp.status == 400 <==> json.Some? && MissingRequired(json.value)
    ensures json.Some? && !MissingRequired(json.value) && FalsyText(podpayApiKey)
      ==> resp == Response(500, ErrorBody(NotConfigured))
    ensures json.Some? && !MissingRequired(json.value) && !FalsyText(podpayApiKey) && json.value.productName.None?
      ==> resp == Response(500, ErrorBody(InternalError))
    ensures resp.status == 200
      <==> json.Some? && !MissingRequired(json.value) && !FalsyText(podpayApiKey) && json.value.productName.Some?
    ensures resp.status == 200 ==>
      resp.body == QrCodeBody(
        PixPayload(HandlerPixKey, HandlerMerchantName, HandlerMerchantCity, json.value.amount.value, json.value.productName.value),
        SuccessMessage)
    ensures resp.status == 200 ==> CrcValid(resp.body.qrCode)
    ensures resp.status in {200, 400, 500}
  {
    if json.None? {
      return Response(500, ErrorBody(InternalError));
    }
    var req := json.value;
    if FalsyText(req.name) || FalsyText(req.cpf) || FalsyAmount(req.amount) {
      return Response(400, ErrorBody(MissingFields));
    }
    if FalsyText(podpayApiKey) {
      return Response(500, ErrorBody(NotConfigured));
    }
    if req.productName.None? {
      return Response(500, ErrorBody(InternalError));
    }
    resp := QrCodeAnswer(req.amount.value, req.productName.value);
  }

  /** The success branch: the static payload for the posted amount and product name. */
  method QrCodeAnswer(amount: int, productName: string) returns (resp: Response)
    ensures resp == Response(200, QrCodeBody(PixPayload(HandlerPixKey, HandlerMerchantName, HandlerMerchantCity, amount, productName), SuccessMessage))
    ensures CrcValid(resp.body.qrCode)
  {
    var payload := GeneratePixPayload(HandlerPixKey, HandlerMerchantName, HandlerMerchantCity, amount, productName);
    resp := Response(200, QrCodeBody(payload, SuccessMessage));
  }
}
