/** How each outcome is written onto a trade (app/services/trading_service.py and the edit made by
    `reconcile_trade` in app/services/reconciliation_service.py), as functions on committed rows. */
module Trading {
  import opened Wrappers
  import opened Numbers
  import opened Models
  import opened Webhook
  import opened BinanceClient

  type Table = map<TradeId, Trade>

  function Take(s: string, n: nat): string { if |s| <= n then s else s[..n] }

  /** `BINANCE_STATUS_MAP.get(status, NEW)`. */
  function MapStatus(status: OrderStatus): TradeStatus {
    match status
    case NEW => New
    case PARTIALLY_FILLED => PartiallyFilled
    case FILLED => Filled
    case CANCELED => Cancelled
    case PENDING_CANCEL => Cancelled
    case REJECTED => Rejected
    case EXPIRED => Expired
    case EXPIRED_IN_MATCH => Expired
    case DRY_RUN_VALIDATED => Filled
    case OtherText(_) => New
  }

  function CodeText(code: ErrorCode): string {
    match code
    case NoCode => "None"
    case IntCode(n) => if n < 0 then "-" + Digits(-n) else Digits(n)
    case TextCode(text) => text
  }

  function CodeOr(code: ErrorCode, fallback: string): string {
    if code.NoCode? then fallback else CodeText(code)
  }

  // ---------------------------------------------------------------- edits made in memory

  /** The columns copied from an order the exchange reported. */
  function WithOrder(trade: Trade, order: OrderResult): Trade {
    trade.(binanceOrderId := order.orderId,
           binanceStatus := Some(order.status),
           executedQuantity := Some(order.executedQuantity),
           cumulativeQuoteQuantity := Some(order.cumulativeQuoteQuantity),
           status := MapStatus(order.status))
  }

  /** The edit made for a placement: success, refusal, no connection, or unknown. */
  function Settled(trade: Trade, placement: Placement): Trade {
    match placement
    case Placed(order) => WithOrder(trade, order).(errorCode := None)
    case NotPlaced(RateLimited(code)) =>
      trade.(status := Rejected, errorCode := Some(Take("rate_limit:" + CodeText(code), 64)))
    case NotPlaced(Unavailable(code)) =>
      trade.(status := Failed, errorCode := Some(Take(CodeOr(code, "unavailable"), 64)))
    case NotPlaced(Uncertain(code)) =>
      trade.(status := Unknown, errorCode := Some(CodeOr(code, "uncertain")))
    case NotPlaced(error) =>
      trade.(status := Rejected, errorCode := Some(Take(CodeOr(error.code, "rejected"), 64)))
    case Broke => trade
  }

  /** The edit `reconcile_trade` makes once the exchange has answered. */
  function Resolved(trade: Trade, found: Option<OrderResult>): Trade {
    match found
    case None => trade.(status := Failed, errorCode := Some("order_not_found"), reconciled := true)
    case Some(order) =>
      var seen := WithOrder(trade, order).(reconciled := true);
      if seen.status.Rejected? || seen.status.Failed? then seen else seen.(errorCode := None)
  }

  lemma SettledKeepsOrder(t: Trade, placement: Placement)
    ensures var r := Settled(t, placement);
      SameOrder(t, r) && r.submitted == t.submitted && r.reconciled == t.reconciled &&
      (IsUncertain(placement) ==> r.status.Unknown?)
  {}

  lemma ResolvedKeepsOrder(t: Trade, found: Option<OrderResult>)
    ensures SameOrder(t, Resolved(t, found)) && Resolved(t, found).submitted == t.submitted
  {}

  // ---------------------------------------------------------------- committed rows

  /** One column of an UPDATE: written only when the session changed it since loading. */
  function Column<T(==)>(stored: T, loaded: T, edited: T): T {
    if edited == loaded then stored else edited
  }

  /** Committing an edited copy writes the changed columns over whatever is stored by then. */
  function Flush(stored: Trade, loaded: Trade, edited: Trade): Trade {
    stored.(
      status := Column(stored.status, loaded.status, edited.status),
      binanceOrderId := Column(stored.binanceOrderId, loaded.binanceOrderId, edited.binanceOrderId),
      binanceStatus := Column(stored.binanceStatus, loaded.binanceStatus, edited.binanceStatus),
      executedQuantity := Column(stored.executedQuantity, loaded.executedQuantity, edited.executedQuantity),
      cumulativeQuoteQuantity :=
        Column(stored.cumulativeQuoteQuantity, loaded.cumulativeQuoteQuantity, edited.cumulativeQuoteQuantity),
      errorCode := Column(stored.errorCode, loaded.errorCode, edited.errorCode),
      submitted := Column(stored.submitted, loaded.submitted, edited.submitted),
      reconciled := Column(stored.reconciled, loaded.reconciled, edited.reconciled))
  }

  function Write(rows: Table, loaded: Trade, edited: Trade): Table
    requires loaded.id in rows
  {
    rows[loaded.id := Flush(rows[loaded.id], loaded, edited)]
  }

  /** With a current copy, a commit stores exactly the edited copy. */
  lemma FlushOfCurrent(loaded: Trade, edited: Trade)
    requires SameOrder(loaded, edited)
    ensures Flush(loaded, loaded, edited) == edited
  {}

  lemma WriteOverCurrent(rows: Table, loaded: Trade, edited: Trade)
    requires loaded.id in rows && rows[loaded.id] == loaded && SameOrder(loaded, edited)
    ensures Write(rows, loaded, edited) == rows[loaded.id := edited]
  {
    FlushOfCurrent(loaded, edited);
  }

  /** Some column changed by one edit is changed by the other too. */
  predicate Overlap(base: Trade, a: Trade, b: Trade) {
    || (a.status != base.status && b.status != base.status)
    || (a.binanceOrderId != base.binanceOrderId && b.binanceOrderId != base.binanceOrderId)
    || (a.binanceStatus != base.binanceStatus && b.binanceStatus != base.binanceStatus)
    || (a.executedQuantity != base.executedQuantity && b.executedQuantity != base.executedQuantity)
    || (a.cumulativeQuoteQuantity != base.cumulativeQuoteQuantity
        && b.cumulativeQuoteQuantity != base.cumulativeQuoteQuantity)
    || (a.errorCode != base.errorCode && b.errorCode != base.errorCode)
    || (a.submitted != base.submitted && b.submitted != base.submitted)
    || (a.reconciled != base.reconciled && b.reconciled != base.reconciled)
  }

  /** Two sessions that loaded the same row and changed different columns lose nothing of each other's,
      whichever commits first; whoever commits last wins the columns both changed. */
  lemma CommitsMerge(base: Trade, a: Trade, b: Trade)
    requires SameOrder(base, a) && SameOrder(base, b)
    ensures var last := Flush(a, base, b);
      && (!Overlap(base, a, b) ==> last == Flush(b, base, a))
      && Flush(last, base, b) == last
      && (b == base ==> last == a) && (a == base ==> last == b)
  {}

  /** The two UNIQUE indexes: some row already holds the signal id or the client order id. */
  predicate Clashes(rows: Table, signalId: string, clientOrderId: string) {
    exists id :: id in rows && (rows[id].signalId == signalId || rows[id].clientOrderId == clientOrderId)
  }

  /** `SELECT id WHERE signal_id = ...`: the row holding the signal, or none. */
  predicate NamesHolder(rows: Table, signalId: string, holder: Option<TradeId>) {
    match holder
    case Some(id) => id in rows && rows[id].signalId == signalId
    case None => forall id :: id in rows ==> rows[id].signalId != signalId
  }

  /** The PENDING row of commit #1. */
  function NewTrade(config: Config, payload: Payload, id: TradeId, createdAt: int): Trade
    requires payload.quantity.Finite? && StoreNumeric(payload.quantity).Some?
  {
    Trade(id, config.ownerId, payload.signalId, config.clientOrderId(payload.signalId),
          payload.symbol, payload.action, StoreNumeric(payload.quantity).value,
          Pending, None, None, None, None, None, false, false, createdAt)
  }

  /** The row is what the signal asks for, owned by the configured account, with nothing done about it yet. */
  predicate Opens(row: Trade, config: Config, payload: Payload, id: TradeId, createdAt: int)
    requires payload.quantity.Finite?
  {
    && row.id == id && row.userId == config.ownerId && row.createdAt == createdAt
    && row.signalId == payload.signalId && row.clientOrderId == config.clientOrderId(payload.signalId)
    && row.symbol == payload.symbol && row.side == payload.action
    && StoreNumeric(payload.quantity) == Some(row.quantity)
    && row.status.Pending? && !row.submitted && !row.reconciled && row.errorCode.None?
    && row.binanceOrderId.None? && row.binanceStatus.None?
    && row.executedQuantity.None? && row.cumulativeQuoteQuantity.None?
  }

  lemma NewTradeOpens(config: Config, payload: Payload, id: TradeId, createdAt: int)
    requires payload.quantity.Finite? && StoreNumeric(payload.quantity).Some?
    ensures Opens(NewTrade(config, payload, id, createdAt), config, payload, id, createdAt)
  {}

  /** The condition of the claiming UPDATE, which is also what `resume_pending` selects. */
  predicate Claimable(trade: Trade) { trade.status.Pending? && !trade.submitted }

  predicate Waits(rows: Table, id: TradeId) { id in rows && Claimable(rows[id]) }

  /** What `find_reconcilable_trades` selects. */
  predicate Reconcilable(trade: Trade, cutoff: int) { IsReconcilable(trade.status) && trade.createdAt < cutoff }

  function Claim(rows: Table, id: TradeId): Table {
    if id in rows && Claimable(rows[id]) then rows[id := rows[id].(submitted := true)] else rows
  }

  // ---------------------------------------------------------------- one trade from claim to outcome

  /** A change of the status of an order at the exchange. */
  datatype Move = Move(clientOrderId: string, status: OrderStatus)

  /** What the outside world does to one submission: the status with which the order landed, how this and
      other orders move until the follow-up query, the replies to the two requests, and which commits fail. */
  datatype Fate = Fate(
    dryRun: bool, landing: Option<OrderStatus>, moves: seq<Move>, reply: Wire, query: Wire,
    settleFails: bool, reconcileFails: bool)

  /** An exception leaves the submission: its own commit fails, or the reply is an order whose id is no number. */
  predicate Escapes(fate: Fate) {
    || fate.settleFails
    || (!fate.dryRun && ReadableReply(fate.reply) && fate.reply.body.Object? && fate.reply.body.orderId.NotAnInt?)
  }

  /** The row `reconcile_trade` leaves when nothing else touches it meanwhile. */
  function Reconciled(trade: Trade, query: Wire, commitFails: bool): Trade {
    if IsTerminal(trade.status) || commitFails then trade
    else match GetOrder(query)
         case Found(order) => Resolved(trade, Some(order))
         case NoSuchOrder => Resolved(trade, None)
         case _ => trade
  }

  /** The row `submit_to_binance` leaves for a claimed trade when nothing else touches it meanwhile. */
  function Submitted(trade: Trade, fate: Fate): Trade {
    var placement := PlaceMarketOrder(fate.dryRun, fate.reply);
    if fate.settleFails then trade
    else
      var settled := Settled(trade, placement);
      if IsUncertain(placement)
      then Reconciled(settled, fate.query, fate.reconcileFails)
      else settled
  }

  lemma ReconciledKeepsOrder(trade: Trade, query: Wire, commitFails: bool)
    ensures var end := Reconciled(trade, query, commitFails); SameOrder(end, trade) && end.submitted == trade.submitted
  {}

  lemma SubmittedKeepsOrder(trade: Trade, fate: Fate)
    ensures var end := Submitted(trade, fate); SameOrder(end, trade) && end.submitted == trade.submitted
  {
    var settled := Settled(trade, PlaceMarketOrder(fate.dryRun, fate.reply));
    SettledKeepsOrder(trade, PlaceMarketOrder(fate.dryRun, fate.reply));
    ReconciledKeepsOrder(settled, fate.query, fate.reconcileFails);
  }

  // ---------------------------------------------------------------- nothing is guessed

  /** A reply to the order that settles its fate for good. */
  predicate ConclusivePlacement(dryRun: bool, wire: Wire) {
    || wire.ConnectFailed?
    || (wire.Response? && RefusalStatus(wire.statusCode))
    || (ReadableReply(wire) &&
        (dryRun || (wire.body.Object? && !wire.body.orderId.NotAnInt? && IsTerminal(MapStatus(wire.body.status)))))
  }

  /** A reply to a query that settles the order's fate for good. */
  predicate ConclusiveLookup(wire: Wire) {
    || (wire.Response? && RefusalStatus(wire.statusCode) && CodeOf(wire.body) == ORDER_DOES_NOT_EXIST)
    || (ReadableReply(wire) && wire.body.Object? && !wire.body.orderId.NotAnInt? &&
        IsTerminal(MapStatus(wire.body.status)))
  }

  /** Reconciliation closes a trade exactly when the exchange's answer is conclusive. */
  lemma ReconciliationNeverGuesses(trade: Trade, query: Wire, commitFails: bool)
    requires !IsTerminal(trade.status)
    ensures IsTerminal(Reconciled(trade, query, commitFails).status) <==> !commitFails && ConclusiveLookup(query)
    ensures GetOrder(query).CouldNotAsk? || GetOrder(query).LookupBroke? ==>
              Reconciled(trade, query, commitFails) == trade
  {}

  /** A submission ends terminal exactly on conclusive evidence: a timeout, a 5xx, a transport error, an
      unreadable reply or a failed query is never turned into a guess. */
  lemma SubmissionNeverGuesses(trade: Trade, fate: Fate)
    requires trade.status.Pending? && trade.submitted
    ensures var end := Submitted(trade, fate);
      && end.submitted && SameOrder(end, trade)
      && (IsTerminal(end.status) <==>
            && !fate.settleFails
            && (|| ConclusivePlacement(fate.dryRun, fate.reply)
                || (IsUncertain(PlaceMarketOrder(fate.dryRun, fate.reply))
                    && !fate.reconcileFails && ConclusiveLookup(fate.query))))
  {
    var placement := PlaceMarketOrder(fate.dryRun, fate.reply);
    if IsUncertain(placement) {
      ReconciliationNeverGuesses(Settled(trade, placement), fate.query, fate.reconcileFails);
    }
  }

  /** A lost reply costs nothing but the note of it: when the follow-up query reports what the reply would
      have said, the row ends as if the reply had arrived, with every figure the exchange gave, except that
      it is marked reconciled and a rejected order keeps the timeout's error code. */
  lemma LateAnswerIsAsGood(trade: Trade, fate: Fate, body: Body)
    requires trade.status.Pending? && trade.submitted && !trade.reconciled
    requires body.Object? && !body.orderId.NotAnInt?
    requires !fate.dryRun && !fate.settleFails && !fate.reconcileFails
    ensures var direct := Submitted(trade, fate.(reply := Response(200, body)));
      var late := Submitted(trade, fate.(reply := TimedOut, query := Response(200, body)));
      && late == direct.(reconciled := true, errorCode := if direct.status.Rejected? then Some("timeout") else None)
      && direct.binanceStatus == Some(body.status) && direct.status == MapStatus(body.status)
      && direct.executedQuantity == Some(body.executedQty)
      && direct.cumulativeQuoteQuantity == Some(body.cummulativeQuoteQty)
      && direct.binanceOrderId == (if body.orderId.IntId? then Some(body.orderId.id) else None)
      && direct.errorCode.None? && !direct.reconciled
  {
    var timeout := Uncertain(TextCode("timeout"));
    assert PlaceMarketOrder(false, TimedOut) == NotPlaced(timeout);
    assert Settled(trade, NotPlaced(timeout)).status.Unknown?;
  }
}
