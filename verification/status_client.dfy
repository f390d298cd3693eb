/**
 * The status client of check_orders.py (`fetch_order_status`): it builds the
 * full order id, sends one status query and turns the reply into a raw
 * status code and a display label. The HTTP exchange itself is abstract: the
 * reply is an input.
 */
module StatusClient {
  import opened Text
  import opened Status

  /** `CONFIG_ID`, sent as the `config` query parameter. */
  const CONFIG_ID: string := "1320"

  /** The text of the AttributeError Python raises when `.lower()` is called on None. */
  const NONE_HAS_NO_LOWER: string := "'NoneType' object has no attribute 'lower'"

  /** A field of the JSON body as `data.get(name, "")` sees it. */
  datatype JsonField = Absent | Null | Str(value: string)

  /**
   * What the status request produced: a failure raised by `requests.get`,
   * `raise_for_status` or `resp.json` (with the text of the exception), or
   * a JSON object with its two summary fields.
   */
  datatype StatusReply =
    | RequestFailed(message: string)
    | Body(summaryStateText: JsonField, summaryStateCode: JsonField)

  /** The query parameters of the status request. */
  datatype StatusQuery = StatusQuery(config: string, fullOrderId: string)

  /** `(status_code, formatted_status)` */
  datatype StatusResult = StatusResult(code: string, display: Label)

  /** The query that was sent and the result that was returned. */
  datatype StatusFetch = StatusFetch(query: StatusQuery, result: StatusResult)

  /** An order number that already holds the shop: it has a '-' and twelve other characters. */
  predicate IsFullForm(order: string) {
    '-' in order && |Without(order, '-')| == 12
  }

  /** The full order id: the order number itself when it is in full form, else `shop-order`. */
  function FullOrderId(order: string, shop: string): (r: string)
    ensures r == order <==> IsFullForm(order)
    ensures r != order ==> r == shop + "-" + order
    ensures '-' in r && EndsWith(r, order)
  {
    if IsFullForm(order) then order else shop + "-" + order
  }

  /** "050842" at shop "541032" becomes "541032-050842". */
  lemma ShortOrderComposed()
    ensures FullOrderId("050842", "541032") == "541032-050842"
  {
    assert '-' !in "050842";
  }

  /**
   * A six-digit-style shop and order without hyphens compose into an id in
   * full form, so feeding the composed id back in leaves it unchanged.
   */
  lemma {:induction false} ComposedIdIsFullForm(order: string, shop: string, otherShop: string)
    requires '-' !in order && '-' !in shop && |shop| + |order| == 12
    ensures IsFullForm(FullOrderId(order, shop))
    ensures FullOrderId(FullOrderId(order, shop), otherShop) == FullOrderId(order, shop)
  {
    var r := shop + "-" + order;
    assert r == shop + ("-" + order);
    WithoutAppend(shop, "-" + order, '-');
    WithoutAppend("-", order, '-');
    WithoutAbsent(shop, '-');
    WithoutAbsent(order, '-');
    assert Without("-", '-') == [];
    assert '-' in r by { assert r[|shop|] == '-'; }
  }

  /** "541032-050842" is already in full form and is kept as it is, whatever the shop. */
  lemma FullFormKept(shop: string)
    ensures FullOrderId("541032-050842", shop) == "541032-050842"
  {
    assert '-' !in "050842" && '-' !in "541032";
    ShortOrderComposed();
    ComposedIdIsFullForm("050842", "541032", shop);
  }

  /** `summaryStateText`, else the code, else "Unknown". */
  function StatusText(text: JsonField, code: string): (r: string)
    ensures r != ""
    ensures text.Str? && text.value != "" ==> r == text.value
    ensures !(text.Str? && text.value != "") && code != "" ==> r == code
    ensures !(text.Str? && text.value != "") && code == "" ==> r == "Unknown"
  {
    if text.Str? && text.value != "" then text.value
    else if code != "" then code
    else "Unknown"
  }

  /** The label of a failed fetch: the warning glyph and "Error: " followed by the message. */
  function ErrorLabel(message: string): Label {
    Label(Warning, "Error: " + message)
  }

  /** `fetch_order_status(order_number, shop_number)` given the reply to its request. */
  function FetchOrderStatus(order: string, shop: string, reply: StatusReply): (r: StatusFetch)
    ensures r.query == StatusQuery(CONFIG_ID, FullOrderId(order, shop))
    ensures reply.RequestFailed? ==> r.result == StatusResult("", ErrorLabel(reply.message))
    ensures reply.Body? && reply.summaryStateCode.Null? ==>
              r.result == StatusResult("", ErrorLabel(NONE_HAS_NO_LOWER))
    ensures reply.Body? && reply.summaryStateCode.Str? ==>
              r.result.code == reply.summaryStateCode.value
    ensures reply.Body? && !reply.summaryStateCode.Null? ==>
              r.result.display == AddStatusEmoji(r.result.code, StatusText(reply.summaryStateText, r.result.code))
    ensures r.result.code != "" ==> reply.Body? && reply.summaryStateCode == Str(r.result.code)
    ensures r.result.display.text != ""
    ensures IsReadyForPickup(r.result.code) ==> r.result.display.glyph == CheckMark
  {
    var query := StatusQuery(CONFIG_ID, FullOrderId(order, shop));
    match reply
    case RequestFailed(message) =>
      StatusFetch(query, StatusResult("", ErrorLabel(message)))
    case Body(_, Null) =>
      StatusFetch(query, StatusResult("", ErrorLabel(NONE_HAS_NO_LOWER)))
    case Body(text, Absent) =>
      StatusFetch(query, Classified(text, ""))
    case Body(text, Str(code)) =>
      StatusFetch(query, Classified(text, code))
  }

  /** The result for a reply whose code field is a string (or absent, read as ""). */
  function Classified(text: JsonField, code: string): (r: StatusResult)
    ensures r.code == code
    ensures r.display == AddStatusEmoji(code, StatusText(text, code))
    ensures IsReadyForPickup(code) ==> r.display.glyph == CheckMark
  {
    if IsReadyForPickup(code) then
      ReadyShowsCheckMark(code, StatusText(text, code));
      StatusResult(code, AddStatusEmoji(code, StatusText(text, code)))
    else
      StatusResult(code, AddStatusEmoji(code, StatusText(text, code)))
  }

  /** A failed fetch is never ready for pickup and shows the warning glyph. */
  lemma FailedFetchNotReady(order: string, shop: string, message: string)
    ensures var r := FetchOrderStatus(order, shop, RequestFailed(message)).result;
            !IsReadyForPickup(r.code) && r.display.glyph == Warning
  {
    assert Upper("") == "";
  }
}
