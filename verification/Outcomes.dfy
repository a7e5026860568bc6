/** What is recorded for each reply of the exchange, column by column: the statuses and figures of a live or
    finished order, and the error codes of every failure (app/services/trading_service.py,
    app/services/reconciliation_service.py, app/services/binance_service.py). */
module Outcomes {
  import opened Wrappers
  import opened Decimals
  import opened Numbers
  import opened Models
  import opened BinanceClient
  import opened Trading

  // ---------------------------------------------------------------- statuses and codes

  /** The trade status stands for the status text. */
  predicate StandsFor(status: TradeStatus, text: OrderStatus) {
    && (status.New? <==> text == NEW || text.OtherText?)
    && (status.PartiallyFilled? <==> text == PARTIALLY_FILLED)
    && (status.Filled? <==> text == FILLED || text == DRY_RUN_VALIDATED)
    && (status.Cancelled? <==> text == CANCELED || text == PENDING_CANCEL)
    && (status.Rejected? <==> text == REJECTED)
    && (status.Expired? <==> text == EXPIRED || text == EXPIRED_IN_MATCH)
  }

  lemma StatusStandsForText(text: OrderStatus)
    ensures StandsFor(MapStatus(text), text)
  {}

  /** `str` of an error code. */
  predicate Shows(text: string, code: ErrorCode) {
    match code
    case NoCode => text == "None"
    case TextCode(given) => text == given
    case IntCode(n) =>
      && Unpadded(Unsigned(text)) && AllDigits(Unsigned(text))
      && (IsNegative(text) <==> n < 0)
      && ParseDigits(Unsigned(text)) == if n < 0 then -n else n
  }

  lemma CodeTextShows(code: ErrorCode)
    ensures Shows(CodeText(code), code)
  {
    if code.IntCode? {
      var m := if code.number < 0 then -code.number else code.number;
      ParseOfDigits(m);
      DigitsAreUnpadded(m);
      assert ("-" + Digits(m))[1..] == Digits(m);
    }
  }

  /** No other text shows the code. */
  lemma ShownOnce(a: string, b: string, code: ErrorCode)
    requires Shows(a, code) && Shows(b, code)
    ensures a == b
  {
    if code.IntCode? {
      UnpaddedDigits(Unsigned(a));
      UnpaddedDigits(Unsigned(b));
      SignApart(a);
      SignApart(b);
    }
  }

  /** The column holds the text, or its first 64 characters. */
  predicate Holds(column: Option<string>, text: string) {
    column.Some? && column.value <= text && |column.value| == if |text| <= 64 then |text| else 64
  }

  /** Nothing but the status and the error code differs. */
  predicate OnlyMarked(after: Trade, before: Trade) {
    after == before.(status := after.status, errorCode := after.errorCode)
  }

  /** The four columns that come from an order are as the order says, and the status stands for its text. */
  predicate Reports(after: Trade, orderId: Option<int>, text: OrderStatus, executed: Decimal, quote: Decimal) {
    && after.binanceOrderId == orderId && after.binanceStatus == Some(text)
    && after.executedQuantity == Some(executed) && after.cumulativeQuoteQuantity == Some(quote)
    && StandsFor(after.status, text)
  }

  /** Nothing but these columns, the error code and the mark of a reconciliation differs. */
  predicate OnlyReported(after: Trade, before: Trade) {
    SameOrder(after, before) && after.submitted == before.submitted
  }

  const ZERO := Finite(false, 0, 0)

  /** A reply that reports an order: readable, and its order id absent or a number. JSON that is no object is
      read as an order of which nothing is known. */
  predicate ReportsOrder(wire: Wire) {
    && wire.Response? && wire.statusCode < 400
    && !wire.body.NotJson? && (wire.body.Object? ==> !wire.body.orderId.NotAnInt?)
  }

  /** A reply that says the order does not exist. */
  predicate ReportsAbsence(wire: Wire) {
    wire.Response? && 400 <= wire.statusCode < 500 && wire.body.Object? && wire.body.code == IntCode(-2013)
  }

  predicate AsReported(after: Trade, body: Body) {
    if body.Object?
    then Reports(after, if body.orderId.IntId? then Some(body.orderId.id) else None,
                 body.status, body.executedQty, body.cummulativeQuoteQty)
    else Reports(after, None, OtherText(""), ZERO, ZERO)
  }

  // ---------------------------------------------------------------- a submission

  /** What the reply to the order leaves, before any follow-up query. */
  predicate PlacementRecorded(after: Trade, before: Trade, dryRun: bool, reply: Wire) {
    var code := if reply.Response? && reply.body.Object? then reply.body.code else NoCode;
    if reply.Response? && reply.statusCode < 400 && !reply.body.NotJson? then
      if dryRun then
        Reports(after, None, DRY_RUN_VALIDATED, ZERO, ZERO) && OnlyReported(after, before)
        && after.errorCode.None? && after.reconciled == before.reconciled
      else if ReportsOrder(reply) then
        AsReported(after, reply.body) && OnlyReported(after, before)
        && after.errorCode.None? && after.reconciled == before.reconciled
      else after == before
    else
      && OnlyMarked(after, before)
      && match reply
         case ConnectFailed => after.status.Failed? && after.errorCode == Some("connection_error")
         case TimedOut => after.status.Unknown? && after.errorCode == Some("timeout")
         case TransportFailed => after.status.Unknown? && after.errorCode == Some("transport_error")
         case Response(http, body) =>
           if http >= 500 then after.status.Unknown? && after.errorCode == Some("server_error")
           else if http < 400 then after.status.Unknown? && after.errorCode == Some("bad_payload")
           else
             && after.status.Rejected?
             && Holds(after.errorCode,
                      if http == 429 || http == 418 then "rate_limit:" + CodeText(code)
                      else if code.NoCode? then "rejected" else CodeText(code))
  }

  lemma SilenceRecords(trade: Trade, dryRun: bool, reply: Wire)
    requires !reply.Response? || reply.statusCode >= 500
    ensures PlacementRecorded(Settled(trade, PlaceMarketOrder(dryRun, reply)), trade, dryRun, reply)
  {}

  lemma TakeHolds(text: string)
    ensures Holds(Some(Take(text, 64)), text)
  {}

  lemma RateLimitRecords(trade: Trade, dryRun: bool, reply: Wire)
    requires reply.Response? && reply.statusCode in {429, 418}
    ensures PlacementRecorded(Settled(trade, PlaceMarketOrder(dryRun, reply)), trade, dryRun, reply)
  {
    assert PlaceMarketOrder(dryRun, reply) == NotPlaced(RateLimited(CodeOf(reply.body)));
    TakeHolds("rate_limit:" + CodeText(CodeOf(reply.body)));
  }

  lemma RefusalRecords(trade: Trade, dryRun: bool, reply: Wire)
    requires reply.Response? && 400 <= reply.statusCode < 500 && reply.statusCode !in {429, 418}
    ensures PlacementRecorded(Settled(trade, PlaceMarketOrder(dryRun, reply)), trade, dryRun, reply)
  {
    var code, placement := CodeOf(reply.body), PlaceMarketOrder(dryRun, reply);
    assert placement == NotPlaced(AuthRefused(code)) || placement == NotPlaced(Refused(code));
    TakeHolds(if code.NoCode? then "rejected" else CodeText(code));
  }

  /** The order's columns and status, no error code, and nothing else. */
  predicate SuccessRecorded(after: Trade, before: Trade, order: OrderResult) {
    && Reports(after, order.orderId, order.status, order.executedQuantity, order.cumulativeQuoteQuantity)
    && OnlyReported(after, before) && after.errorCode.None? && after.reconciled == before.reconciled
  }

  lemma SuccessRecords(trade: Trade, order: OrderResult)
    ensures SuccessRecorded(Settled(trade, Placed(order)), trade, order)
  {
    StatusStandsForText(order.status);
  }

  lemma SettledRecords(trade: Trade, dryRun: bool, reply: Wire)
    ensures PlacementRecorded(Settled(trade, PlaceMarketOrder(dryRun, reply)), trade, dryRun, reply)
  {
    if !reply.Response? || reply.statusCode >= 500 {
      SilenceRecords(trade, dryRun, reply);
    } else if reply.statusCode in {429, 418} {
      RateLimitRecords(trade, dryRun, reply);
    } else if reply.statusCode >= 400 {
      RefusalRecords(trade, dryRun, reply);
    } else if PlaceMarketOrder(dryRun, reply).Placed? {
      SuccessRecords(trade, PlaceMarketOrder(dryRun, reply).order);
    }
  }

  /** What the answer to a query leaves of a row that is still open. */
  predicate AnswerRecorded(after: Trade, before: Trade, query: Wire) {
    if ReportsOrder(query) then
      && AsReported(after, query.body) && OnlyReported(after, before) && after.reconciled
      && after.errorCode == (if after.status.Rejected? then before.errorCode else None)
    else if ReportsAbsence(query) then
      after == before.(status := Failed, errorCode := Some("order_not_found"), reconciled := true)
    else after == before
  }

  lemma ReconciledRecords(trade: Trade, query: Wire)
    requires !IsTerminal(trade.status)
    ensures AnswerRecorded(Reconciled(trade, query, false), trade, query)
  {
    if query.Response? && query.body.Object? {
      StatusStandsForText(query.body.status);
    }
  }

  /** What a submission leaves, reply by reply: the row of the reply, and after an uncertain one the row of the
      one query that follows; nothing when the commit fails, and the row of the reply when the second does. */
  lemma SubmissionRecords(trade: Trade, fate: Fate) returns (settled: Trade)
    requires trade.status.Pending?
    ensures PlacementRecorded(settled, trade, fate.dryRun, fate.reply)
    ensures var end := Submitted(trade, fate);
      if fate.settleFails then end == trade
      else if settled.status.Unknown? && !fate.reconcileFails then AnswerRecorded(end, settled, fate.query)
      else end == settled
  {
    settled := Settled(trade, PlaceMarketOrder(fate.dryRun, fate.reply));
    SettledRecords(trade, fate.dryRun, fate.reply);
    if settled.status.Unknown? {
      ReconciledRecords(settled, fate.query);
    }
  }

  /** What a reconciliation leaves, reply by reply; it leaves a row that is over alone. */
  lemma ReconciliationRecords(trade: Trade, query: Wire, commitFails: bool)
    ensures var end := Reconciled(trade, query, commitFails);
      if IsTerminal(trade.status) || commitFails then end == trade else AnswerRecorded(end, trade, query)
  {
    if !IsTerminal(trade.status) && !commitFails {
      ReconciledRecords(trade, query);
    }
  }
}
