/** The services, method by method as they change the database, the exchange and the queue: submission
    (app/services/trading_service.py), reconciliation (app/services/reconciliation_service.py) and the
    executor (app/services/execution_queue.py). Each is tied to the functions the theorems are about. */
module Services {
  import opened Wrappers
  import opened Models
  import opened Webhook
  import opened BinanceClient
  import opened Trading
  import opened Protocol
  import opened Queries
  import opened Execution
  import opened Outcomes
  import R = Reconciliation
  import opened Stores

  // ---------------------------------------------------------------- reconciliation

  /** `reconcile_trade` on a loaded copy, which need not be current. It asks the exchange once, by the
      committed client order id, unless the copy is terminal; it never places or changes an order. */
  method ReconcileTrade(db: Database, exchange: Exchange, trade: Trade, asked: R.Asked)
    returns (after: Trade, raised: bool)
    requires db.Valid() && trade.id in db.rows
    modifies db`rows, exchange`queries
    ensures db.Valid()
    ensures exchange.orders == old(exchange.orders) && exchange.calls == old(exchange.calls)
    ensures exchange.queries == old(exchange.queries) + if IsTerminal(trade.status) then [] else [trade.clientOrderId]
    ensures db.rows == R.Recorded(old(db.rows), trade, asked)
    ensures raised <==> R.Raises(trade, asked)
    ensures !raised ==> after == R.Learned(trade, asked)
  {
    after, raised := trade, false;
    if IsTerminal(trade.status) { return; }
    var lookup := exchange.Ask(trade.clientOrderId, asked.reply);
    match lookup {
      case CouldNotAsk(_) =>
      case LookupBroke => raised := true;
      case NoSuchOrder =>
        after := trade.(status := Failed, errorCode := Some("order_not_found"), reconciled := true);
        var ok := db.Commit(trade, after, asked.commitFails);
        raised := !ok;
      case Found(order) =>
        after := trade.(binanceOrderId := order.orderId,
                        binanceStatus := Some(order.status),
                        executedQuantity := Some(order.executedQuantity),
                        cumulativeQuoteQuantity := Some(order.cumulativeQuoteQuantity),
                        status := MapStatus(order.status),
                        reconciled := true);
        if !after.status.Rejected? && !after.status.Failed? { after := after.(errorCode := None); }
        var ok := db.Commit(trade, after, asked.commitFails);
        raised := !ok;
    }
  }

  /** The loop of `reconcile_pending_trades` over the trades it loaded. */
  method ReconcileTrades(db: Database, exchange: Exchange, ids: seq<TradeId>, replies: R.Replies)
    returns (summary: R.Summary, raised: bool)
    requires db.Valid() && forall i :: 0 <= i < |ids| ==> ids[i] in db.rows
    requires forall i, j :: 0 <= i < j < |ids| ==> ids[i] != ids[j]
    modifies db`rows, exchange`queries
    ensures db.Valid()
    ensures R.Batch(db.rows, summary, raised) == R.ReconcileAll(old(db.rows), ids, replies)
    ensures |exchange.queries| <= |old(exchange.queries)| + summary.checked + if raised then 1 else 0
  {
    summary, raised := R.Summary(0, 0, 0), false;
    ghost var rows := db.rows;
    var i := 0;
    while i < |ids|
      invariant 0 <= i <= |ids| && db.Valid()
      invariant R.Batch(db.rows, summary, false) == R.ReconcileAll(rows, ids[..i], replies)
      invariant summary.checked == i && |exchange.queries| <= |old(exchange.queries)| + i
    {
      R.OneMoreTrade(rows, ids, replies, i);
      ghost var next := R.ReconcileAll(rows, ids[..i + 1], replies);
      var trade := db.rows[ids[i]];
      var after;
      after, raised := ReconcileTrade(db, exchange, trade, replies(trade.id));
      if raised {
        assert R.Batch(db.rows, summary, true) == next;
        R.RaisedEndsRun(rows, ids, replies, i + 1);
        return;
      }
      summary := R.Count(summary, after.status != trade.status);
      assert R.Batch(db.rows, summary, false) == next;
      i := i + 1;
    }
    assert ids[..i] == ids;
  }

  /** `reconcile_pending_trades`: the batch it selected, its summary, and whether an exception ended it. */
  method ReconcilePendingTrades(db: Database, exchange: Exchange, cutoff: int, limit: nat, replies: R.Replies)
    returns (ids: seq<TradeId>, summary: R.Summary, raised: bool)
    requires db.Valid()
    modifies db`rows, exchange`queries
    ensures db.Valid()
    ensures R.IsBatch(old(db.rows), cutoff, limit, ids)
    ensures R.Batch(db.rows, summary, raised) == R.ReconcileAll(old(db.rows), ids, replies)
  {
    ids := db.SelectReconcilable(cutoff, limit);
    summary, raised := ReconcileTrades(db, exchange, ids, replies);
  }

  // ---------------------------------------------------------------- submission

  datatype CreateError = DuplicateSignal(existing: Option<TradeId>) | Overflow

  /** What a refusal, or no connection, leaves is final: the row is terminal with a code that fits its
      column and no figures from the exchange, no resume and no reconciliation job selects it, and
      reconciling it by hand changes nothing. */
  lemma RefusalIsFinal(rows: Table, trade: Trade, error: BinanceError, asked: R.Asked, cutoff: int)
    requires trade.id in rows && rows[trade.id] == trade && !error.Uncertain?
    ensures var after := Write(rows, trade, Settled(trade, NotPlaced(error)));
      && trade.id in after
      && var end := after[trade.id];
         && end.status == (if error.Unavailable? then Failed else Rejected) && IsTerminal(end.status)
         && end.errorCode.Some? && |end.errorCode.value| <= 64
         && end.binanceOrderId == trade.binanceOrderId && end.executedQuantity == trade.executedQuantity
         && !Claimable(end) && !Reconcilable(end, cutoff)
         && R.Recorded(after, end, asked) == after
  {
    SettledKeepsOrder(trade, NotPlaced(error));
    WriteOverCurrent(rows, trade, Settled(trade, NotPlaced(error)));
  }

  lemma UncertainThenAsked(rows: Table, trade: Trade, code: ErrorCode, fate: Fate)
    requires trade.id in rows && rows[trade.id] == trade
    ensures var unknown := trade.(status := Unknown, errorCode := Some(CodeOr(code, "uncertain")));
      && Write(rows, trade, unknown) == rows[trade.id := unknown]
      && R.Recorded(rows[trade.id := unknown], unknown, R.Asked(fate.query, fate.reconcileFails)) ==
           rows[trade.id := Reconciled(Settled(trade, NotPlaced(Uncertain(code))), fate.query, fate.reconcileFails)]
  {
    var unknown := trade.(status := Unknown, errorCode := Some(CodeOr(code, "uncertain")));
    assert unknown == Settled(trade, NotPlaced(Uncertain(code)));
    WriteOverCurrent(rows, trade, unknown);
    R.RecordedOverCurrent(rows[trade.id := unknown], unknown, R.Asked(fate.query, fate.reconcileFails));
  }

  lemma EscapesExactly(fate: Fate)
    ensures Escapes(fate) <==> fate.settleFails || PlaceMarketOrder(fate.dryRun, fate.reply).Broke?
  {}

  lemma SubmissionWrites(rows: Table, trade: Trade, fate: Fate)
    requires trade.id in rows && rows[trade.id] == trade
    ensures var placement := PlaceMarketOrder(fate.dryRun, fate.reply); var settled := Settled(trade, placement);
      rows[trade.id := Submitted(trade, fate)] ==
        if fate.settleFails || placement.Broke? then rows
        else if IsUncertain(placement)
        then rows[trade.id := Reconciled(settled, fate.query, fate.reconcileFails)]
        else Write(rows, trade, settled)
  {
    var placement := PlaceMarketOrder(fate.dryRun, fate.reply);
    SettledKeepsOrder(trade, placement);
    WriteOverCurrent(rows, trade, Settled(trade, placement));
  }

  class TradingService {
    const config: Config
    const db: Database
    const exchange: Exchange

    constructor (config: Config, db: Database, exchange: Exchange)
      ensures this.config == config && this.db == db && this.exchange == exchange
    {
      this.config, this.db, this.exchange := config, db, exchange;
    }

    ghost function Now(): Ledger
      reads db, exchange
    {
      Ledger(db.rows, exchange.orders, exchange.calls)
    }

    /** `_create_pending_trade`: insert first; only a refused insert looks for the holder. */
    method CreatePendingTrade(payload: Payload, createdAt: int) returns (r: Result<TradeId, CreateError>)
      requires db.Valid() && payload.quantity.Finite?
      modifies db
      ensures db.Valid()
      ensures r.Ok? <==>
                Storable(payload) && !Clashes(old(db.rows), payload.signalId, config.clientOrderId(payload.signalId))
      ensures r.Ok? ==> r.value !in old(db.rows) &&
                        db.rows == old(db.rows)[r.value := NewTrade(config, payload, r.value, createdAt)]
      ensures r.Ok? ==> Opens(db.rows[r.value], config, payload, r.value, createdAt)
      ensures r.Ok? ==> r.value in Matching(db.rows, config.ownerId, None) && r.value in NeverSubmitted(db.rows)
      ensures r.Err? ==> db.rows == old(db.rows)
      ensures r.Err? ==> if Storable(payload)
                         then r.error.DuplicateSignal? && NamesHolder(db.rows, payload.signalId, r.error.existing)
                         else r.error.Overflow?
    {
      var stored := StoreNumeric(payload.quantity);
      if stored.None? { return Err(Overflow); }
      var draft := Trade(0, config.ownerId, payload.signalId, config.clientOrderId(payload.signalId),
                         payload.symbol, payload.action, stored.value,
                         Pending, None, None, None, None, None, false, false, createdAt);
      var id := db.Insert(draft);
      if id.None? {
        var holder := db.HolderOf(payload.signalId);
        return Err(DuplicateSignal(holder));
      }
      r := Ok(id.value);
    }

    /** `claim_for_submission`: the trade, re-read after the claim, for the one caller who wins it. */
    method ClaimForSubmission(id: TradeId) returns (claimed: Option<Trade>)
      requires db.Valid()
      modifies db`rows
      ensures db.Valid() && db.rows == Claim(old(db.rows), id)
      ensures claimed.Some? <==> id in old(db.rows) && Claimable(old(db.rows)[id])
      ensures claimed.Some? ==> claimed.value == db.rows[id] == old(db.rows)[id].(submitted := true)
    {
      var rowcount := db.ClaimRow(id);
      claimed := if rowcount == 1 then Some(db.rows[id]) else None;
    }

    /** `_finalise_success` */
    method FinaliseSuccess(trade: Trade, order: OrderResult, commitFails: bool) returns (ok: bool)
      requires db.Valid() && trade.id in db.rows
      modifies db`rows
      ensures db.Valid() && (ok <==> !commitFails)
      ensures db.rows == if commitFails then old(db.rows) else Write(old(db.rows), trade, Settled(trade, Placed(order)))
      ensures SuccessRecorded(Settled(trade, Placed(order)), trade, order)
    {
      SuccessRecords(trade, order);
      var edited := trade.(binanceOrderId := order.orderId,
                           binanceStatus := Some(order.status),
                           executedQuantity := Some(order.executedQuantity),
                           cumulativeQuoteQuantity := Some(order.cumulativeQuoteQuantity),
                           status := MapStatus(order.status),
                           errorCode := None);
      ok := db.Commit(trade, edited, commitFails);
    }

    /** `_finalise_failure` */
    method FinaliseFailure(trade: Trade, status: TradeStatus, errorCode: string, commitFails: bool) returns (ok: bool)
      requires db.Valid() && trade.id in db.rows
      modifies db`rows
      ensures db.Valid() && (ok <==> !commitFails)
      ensures var edited := trade.(status := status, errorCode := Some(Take(errorCode, 64)));
        db.rows == if commitFails then old(db.rows) else Write(old(db.rows), trade, edited)
    {
      ok := db.Commit(trade, trade.(status := status, errorCode := Some(Take(errorCode, 64))), commitFails);
    }

    /** `_handle_uncertain_outcome`: commit UNKNOWN, then ask once; a failure to ask is swallowed. */
    method HandleUncertainOutcome(trade: Trade, code: ErrorCode, fate: Fate) returns (ok: bool)
      requires db.Valid() && trade.id in db.rows && db.rows[trade.id] == trade
      modifies db`rows, exchange`queries
      ensures db.Valid() && (ok <==> !fate.settleFails)
      ensures db.rows == if fate.settleFails then old(db.rows)
                         else old(db.rows)[trade.id :=
                                Reconciled(Settled(trade, NotPlaced(Uncertain(code))), fate.query, fate.reconcileFails)]
      ensures exchange.queries == old(exchange.queries) + if fate.settleFails then [] else [trade.clientOrderId]
    {
      UncertainThenAsked(db.rows, trade, code, fate);
      var unknown := trade.(status := Unknown, errorCode := Some(CodeOr(code, "uncertain")));
      ok := db.Commit(trade, unknown, fate.settleFails);
      if ok {
        var _, _ := ReconcileTrade(db, exchange, unknown, R.Asked(fate.query, fate.reconcileFails));
      }
    }

    /** `submit_to_binance`: one call, whatever comes back; `ok` is false when an exception escapes. */
    method SubmitToBinance(trade: Trade, fate: Fate) returns (ok: bool)
      requires db.Valid() && trade.id in db.rows && db.rows[trade.id] == trade
      modifies db`rows, exchange
      ensures db.Valid()
      ensures var request := RequestOf(trade, fate.dryRun);
        Now() == Ledger(old(db.rows)[trade.id := Submitted(trade, fate)],
                        Moved(Land(old(exchange.orders), request, fate.landing), fate.moves),
                        old(exchange.calls) + [request])
      ensures ok <==> !Escapes(fate)
      ensures var asks := IsUncertain(PlaceMarketOrder(fate.dryRun, fate.reply)) && !fate.settleFails;
        exchange.queries == old(exchange.queries) + if asks then [trade.clientOrderId] else []
    {
      var placement := exchange.Place(RequestOf(trade, fate.dryRun), fate.landing, fate.moves, fate.reply);
      SubmissionWrites(db.rows, trade, fate);
      EscapesExactly(fate);
      match placement {
        case Placed(order) => ok := FinaliseSuccess(trade, order, fate.settleFails);
        case NotPlaced(RateLimited(code)) =>
          ok := FinaliseFailure(trade, Rejected, "rate_limit:" + CodeText(code), fate.settleFails);
        case NotPlaced(Unavailable(code)) =>
          ok := FinaliseFailure(trade, Failed, CodeOr(code, "unavailable"), fate.settleFails);
        case NotPlaced(Uncertain(code)) => ok := HandleUncertainOutcome(trade, code, fate);
        case NotPlaced(error) =>
          ok := FinaliseFailure(trade, Rejected, CodeOr(error.code, "rejected"), fate.settleFails);
        case Broke => ok := false;
      }
    }
  }
}
