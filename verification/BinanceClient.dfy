/** What the exchange client makes of every reply (app/services/binance_service.py). The HTTP
    exchange itself is a parameter: the client only sees one `Wire` outcome per request. */
module BinanceClient {
  import opened Wrappers
  import opened Decimals

  /** `payload.get("orderId")` as `int()` treats it. */
  datatype IdField = Missing | IntId(id: int) | NotAnInt

  /** Binance's order status texts, those the status map knows and any other. */
  datatype OrderStatus =
    | NEW | PARTIALLY_FILLED | FILLED | CANCELED | PENDING_CANCEL | REJECTED | EXPIRED | EXPIRED_IN_MATCH
    | DRY_RUN_VALIDATED                             // only ever produced by our own dry-run path
    | OtherText(text: string)

  datatype ErrorCode = NoCode | IntCode(number: int) | TextCode(text: string)

  /** A response body: not JSON, JSON that is no object, or an object with the fields read from it. */
  datatype Body =
    | NotJson
    | NotObject
    | Object(orderId: IdField, status: OrderStatus, executedQty: Decimal, cummulativeQuoteQty: Decimal, code: ErrorCode)

  /** One request as seen from this side of the network. */
  datatype Wire =
    | ConnectFailed                                 // refused, DNS, TLS, connect timeout
    | TimedOut                                      // read, write or pool timeout
    | TransportFailed                               // any other transport error
    | Response(statusCode: nat, body: Body)

  /** The error taxonomy. The first three are refusals: `BinanceRejectedError` and its subclasses. */
  datatype BinanceError =
    | RateLimited(code: ErrorCode)
    | AuthRefused(code: ErrorCode)
    | Refused(code: ErrorCode)
    | Unavailable(code: ErrorCode)
    | Uncertain(code: ErrorCode)

  predicate IsRejected(e: BinanceError) { e.RateLimited? || e.AuthRefused? || e.Refused? }

  const ORDER_DOES_NOT_EXIST := IntCode(-2013)

  function CodeOf(body: Body): ErrorCode { if body.Object? then body.code else NoCode }

  const NO_STATUS := OtherText("")

  function StatusText(body: Body): OrderStatus { if body.Object? then body.status else NO_STATUS }

  /** `_handle_response`: a readable body, or the error raised. */
  function HandleResponse(statusCode: nat, body: Body): Result<Body, BinanceError> {
    if statusCode >= 500 then Err(Uncertain(TextCode("server_error")))
    else if statusCode == 429 || statusCode == 418 then Err(RateLimited(CodeOf(body)))
    else if statusCode >= 400 then
      if statusCode == 401 || statusCode == 403 || CodeOf(body) in {IntCode(-2014), IntCode(-2015), IntCode(-1022)}
      then Err(AuthRefused(CodeOf(body)))
      else Err(Refused(CodeOf(body)))
    else match body
      case NotJson => Err(Uncertain(TextCode("bad_payload")))
      case NotObject => Ok(Object(Missing, NO_STATUS, Finite(false, 0, 0), Finite(false, 0, 0), NoCode))
      case Object(_, _, _, _, _) => Ok(body)
  }

  /** `_request`. */
  function Request(wire: Wire): Result<Body, BinanceError> {
    match wire
    case ConnectFailed => Err(Unavailable(TextCode("connection_error")))
    case TimedOut => Err(Uncertain(TextCode("timeout")))
    case TransportFailed => Err(Uncertain(TextCode("transport_error")))
    case Response(statusCode, body) => HandleResponse(statusCode, body)
  }

  /** `BinanceOrderResult`. */
  datatype OrderResult = OrderResult(
    orderId: Option<int>, status: OrderStatus, executedQuantity: Decimal, cumulativeQuoteQuantity: Decimal)

  /** `from_payload`; none when `int(orderId)` raises. */
  function FromPayload(body: Body): Option<OrderResult> {
    if !body.Object? || body.orderId.NotAnInt? then None
    else Some(OrderResult(
      if body.orderId.IntId? then Some(body.orderId.id) else None,
      body.status, body.executedQty, body.cummulativeQuoteQty))
  }

  /** What `place_market_order` returns or raises; `Broke` is an exception outside the taxonomy. */
  datatype Placement = Placed(order: OrderResult) | NotPlaced(error: BinanceError) | Broke

  /** The order may or may not exist. */
  predicate IsUncertain(p: Placement) { p.NotPlaced? && p.error.Uncertain? }

  function PlaceMarketOrder(dryRun: bool, wire: Wire): Placement {
    match Request(wire)
    case Err(error) => NotPlaced(error)
    case Ok(body) =>
      if dryRun then Placed(OrderResult(None, DRY_RUN_VALIDATED, Finite(false, 0, 0), Finite(false, 0, 0)))
      else match FromPayload(body)
           case None => Broke
           case Some(order) => Placed(order)
  }

  /** What `get_order` returns or raises. */
  datatype Lookup = Found(order: OrderResult) | NoSuchOrder | CouldNotAsk(error: BinanceError) | LookupBroke

  function GetOrder(wire: Wire): Lookup {
    match Request(wire)
    case Err(error) =>
      if IsRejected(error) && error.code == ORDER_DOES_NOT_EXIST then NoSuchOrder else CouldNotAsk(error)
    case Ok(body) =>
      match FromPayload(body)
      case None => LookupBroke
      case Some(order) => Found(order)
  }

  // ---------------------------------------------------------------- what an honest exchange answers

  predicate RefusalStatus(statusCode: nat) { 400 <= statusCode < 500 }

  predicate ReadableReply(wire: Wire) {
    wire.Response? && wire.statusCode < 400 && !wire.body.NotJson?
  }

  /** The exchange's side of `POST /order`. `landing` is the status the order took when it came to
      exist, or none. No connection, a refusal and a dry run create nothing, and a readable reply
      describes the order created; timeouts, server errors and unreadable replies say nothing. */
  predicate HonestPlacement(dryRun: bool, landing: Option<OrderStatus>, wire: Wire) {
    && (dryRun || wire.ConnectFailed? || (wire.Response? && RefusalStatus(wire.statusCode)) ==> landing.None?)
    && (!dryRun && ReadableReply(wire) ==> landing == Some(StatusText(wire.body)))
  }

  /** The exchange's side of `GET /order`: -2013 only for an order that does not exist, and a readable
      reply reports the order's status. Every other reply says nothing. */
  predicate HonestLookup(current: Option<OrderStatus>, wire: Wire) {
    && (wire.Response? && RefusalStatus(wire.statusCode) && CodeOf(wire.body) == ORDER_DOES_NOT_EXIST ==> current.None?)
    && (ReadableReply(wire) ==> current == Some(StatusText(wire.body)))
  }

  /** The taxonomy is sound for placements: "placed" names the order's status, every refusal and every
      "unavailable" means nothing was created, and whatever says nothing comes out uncertain. */
  lemma PlacementTaxonomy(dryRun: bool, landing: Option<OrderStatus>, wire: Wire)
    requires HonestPlacement(dryRun, landing, wire)
    ensures var p := PlaceMarketOrder(dryRun, wire);
      && (p.Placed? && !dryRun ==> landing == Some(p.order.status))
      && (p.Placed? && dryRun ==> landing.None? && p.order.status == DRY_RUN_VALIDATED)
      && (p.NotPlaced? && !p.error.Uncertain? ==> landing.None?)
      && (IsUncertain(p) <==>
            wire.TimedOut? || wire.TransportFailed? ||
            (wire.Response? && (wire.statusCode >= 500 || (wire.statusCode < 400 && wire.body.NotJson?))))
      && (p.NotPlaced? && p.error.Unavailable? <==> wire.ConnectFailed?)
      && (p.NotPlaced? && p.error.RateLimited? <==> wire.Response? && wire.statusCode in {429, 418})
      && (p.NotPlaced? && IsRejected(p.error) <==> wire.Response? && RefusalStatus(wire.statusCode))
      && (p.NotPlaced? && p.error.AuthRefused? <==>
            && wire.Response? && RefusalStatus(wire.statusCode) && wire.statusCode !in {429, 418}
            && (wire.statusCode in {401, 403} || CodeOf(wire.body) in {IntCode(-2014), IntCode(-2015), IntCode(-1022)}))
      && (p.NotPlaced? && IsRejected(p.error) ==> p.error.code == CodeOf(wire.body))
      && (p.Broke? <==> !dryRun && ReadableReply(wire) && wire.body.Object? && wire.body.orderId.NotAnInt?)
  {}

  /** Lookups: "no such order" and "found" are true; everything else leaves the fate open. */
  lemma LookupTaxonomy(current: Option<OrderStatus>, wire: Wire)
    requires HonestLookup(current, wire)
    ensures var l := GetOrder(wire);
      && (l.NoSuchOrder? ==> current.None?)
      && (l.Found? ==> current == Some(l.order.status))
      && (l.NoSuchOrder? <==>
            wire.Response? && RefusalStatus(wire.statusCode) && CodeOf(wire.body) == ORDER_DOES_NOT_EXIST)
      && (l.LookupBroke? <==> ReadableReply(wire) && wire.body.Object? && wire.body.orderId.NotAnInt?)
      && (l.Found? <==> ReadableReply(wire) && !l.LookupBroke?)
  {}
}
