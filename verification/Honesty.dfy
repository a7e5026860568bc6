/** Honest statuses, trade by trade: with a truthful exchange, exactly which steps make what a trade's
    terminal status says about its order false. */
module Honesty {
  import opened Wrappers
  import opened Models
  import opened Webhook
  import opened BinanceClient
  import opened Trading
  import opened Protocol
  import opened Safety
  import opened Truth

  // ---------------------------------------------------------------- what a status claims

  /** What each status says about the order under `cid`; `dry` means its one request was a dry run. */
  predicate Warranted(status: TradeStatus, orders: map<string, Order>, cid: string, dry: bool) {
    match status
    case New => cid in orders
    case PartiallyFilled => cid in orders
    case Failed => cid !in orders
    case Rejected => cid !in orders || orders[cid].status == REJECTED
    case Filled => dry || (cid in orders && orders[cid].status == FILLED)
    case Cancelled => cid in orders && (orders[cid].status == CANCELED || orders[cid].status == PENDING_CANCEL)
    case Expired => cid in orders && (orders[cid].status == EXPIRED || orders[cid].status == EXPIRED_IN_MATCH)
    case _ => true
  }

  predicate DryRunSent(sent: seq<OrderRequest>, id: TradeId) {
    exists i :: 0 <= i < |sent| && sent[i].tradeId == id && sent[i].dryRun
  }

  /** The status recorded for trade `id` is true of the exchange. */
  predicate WarrantedOn(s: State, id: TradeId) {
    id in s.rows ==> Warranted(s.rows[id].status, s.orders, s.rows[id].clientOrderId, DryRunSent(s.sent, id))
  }

  predicate AllWarranted(s: State) { forall id :: id in s.rows ==> WarrantedOn(s, id) }

  // ---------------------------------------------------------------- the two steps that can lie

  /** The two ways a status can become false: "no such order" is committed for an order that exists by now,
      or an order lands whose trade has been closed as FAILED. */
  predicate Falsifies(config: Config, s: State, step: Step, id: TradeId)
    requires Enabled(config, s, step)
  {
    || (step.Resolve? &&
        var a := s.procs[step.p].activity;
        a.trade.id == id && a.found.None? && a.trade.clientOrderId in s.orders)
    || (step.Send? && step.landing.Some? &&
        s.procs[step.p].activity.trade.id == id && id in s.rows && s.rows[id].status.Failed?)
  }

  // ---------------------------------------------------------------- what every truthful run keeps

  /** What a commit in preparation is about to write. */
  function PendingStatus(a: Activity): TradeStatus
    requires a.Answered? || a.Resolving?
  {
    if a.Answered? then Settled(a.trade, a.placement).status else Resolved(a.trade, a.found).status
  }

  /** `a` knows of an order of trade `id`. */
  predicate Knows(a: Activity, id: TradeId) {
    (a.Answered? || (a.Resolving? && a.found.Some?)) && a.trade.id == id
  }

  predicate PendingWarranted(a: Activity, orders: map<string, Order>, sent: seq<OrderRequest>)
    requires a.Answered? || a.Resolving?
  {
    && (if a.Answered? then WasSent(sent, a.trade.id) else a.trade.clientOrderId in orders)
    && Warranted(PendingStatus(a), orders, a.trade.clientOrderId, DryRunSent(sent, a.trade.id))
  }

  predicate Unsettled(status: TradeStatus) { status.Pending? || status.Failed? }

  /** What holds of a coroutine as far as trade `id` goes, hazard or not: whoever may still send it finds it
      PENDING or FAILED, and what is known of its order and about to be committed is true. */
  predicate HonestActivity(s: State, a: Activity, id: TradeId) {
    && (SendRight(a) == Some(id) ==> id in s.rows && Unsettled(s.rows[id].status))
    && (Knows(a, id) ==> PendingWarranted(a, s.orders, s.sent))
  }

  predicate HonestProcs(s: State, id: TradeId) {
    forall p :: p in s.procs ==> HonestActivity(s, s.procs[p].activity, id)
  }

  predicate RealStatuses(orders: map<string, Order>) {
    forall cid :: cid in orders ==> orders[cid].status != DRY_RUN_VALIDATED
  }

  predicate HonestOn(s: State, id: TradeId) { HonestProcs(s, id) && RealStatuses(s.orders) }

  /** While somebody knows of a trade's order, nobody may still send it. */
  lemma KnowerIsAlone(config: Config, s: State, p: Pid, q: Pid, id: TradeId)
    requires Inv(config, s) && HonestProcs(s, id) && p in s.procs && q in s.procs && Knows(s.procs[p].activity, id)
    ensures SendRight(s.procs[q].activity) != Some(id)
  {
    var a := s.procs[p].activity;
    assert ActivityOk(s.rows, a) && HonestActivity(s, a, id);
    if a.Resolving? {
      OrderWasSent(config, s, id);
    }
  }

  // ---------------------------------------------------------------- steps that leave the exchange alone

  /** A step of `p` that reaches neither the exchange nor the trade's status. */
  lemma PlainStepStaysHonest(s: State, t: State, p: Pid, id: TradeId)
    requires HonestOn(s, id) && OthersStay(s.procs, t.procs, p) && t.sent == s.sent && t.orders == s.orders
    requires id in s.rows ==> id in t.rows && t.rows[id].status == s.rows[id].status
    requires p in t.procs ==>
      || HonestActivity(t, t.procs[p].activity, id)
      || (p in s.procs && SendRight(s.procs[p].activity) == Some(id) && !Knows(t.procs[p].activity, id))
    ensures HonestOn(t, id)
  {
    forall q | q in t.procs
      ensures HonestActivity(t, t.procs[q].activity, id)
    {
      assert q in s.procs ==> HonestActivity(s, s.procs[q].activity, id);
    }
  }

  /** `p` has committed its edit. */
  predicate Committed(s: State, t: State, p: Pid, edited: Trade)
    requires p in s.procs && (s.procs[p].activity.Answered? || s.procs[p].activity.Resolving?)
  {
    var a := s.procs[p].activity;
    && a.trade.id in s.rows && t.rows == Write(s.rows, a.trade, edited) && edited.status == PendingStatus(a)
    && OthersStay(s.procs, t.procs, p) && t.sent == s.sent && t.orders == s.orders
    && (p in t.procs ==> t.procs[p].activity.Asking?)
  }

  /** A commit leaves the trade to those who may still send it only if it closes it as FAILED. */
  lemma CommitStaysHonest(config: Config, s: State, t: State, p: Pid, edited: Trade, id: TradeId)
    requires Inv(config, s) && HonestOn(s, id)
    requires p in s.procs && (s.procs[p].activity.Answered? || s.procs[p].activity.Resolving?)
    requires Committed(s, t, p, edited)
    ensures HonestOn(t, id)
  {
    WriteStatus(s.rows, s.procs[p].activity.trade, edited);
    forall q | q in t.procs
      ensures HonestActivity(t, t.procs[q].activity, id)
    {
      if q != p {
        assert HonestActivity(s, s.procs[q].activity, id);
        if Knows(s.procs[p].activity, id) {
          KnowerIsAlone(config, s, p, q, id);
        }
      }
    }
  }

  /** A commit makes the status false exactly when it is a "no such order" about an order that exists. */
  lemma CommitTruth(config: Config, s: State, t: State, p: Pid, edited: Trade, id: TradeId)
    requires Inv(config, s) && HonestOn(s, id) && WarrantedOn(s, id)
    requires p in s.procs && (s.procs[p].activity.Answered? || s.procs[p].activity.Resolving?)
    requires Committed(s, t, p, edited)
    ensures var a := s.procs[p].activity;
      WarrantedOn(t, id) <==> !(a.Resolving? && a.trade.id == id && a.found.None? && a.trade.clientOrderId in s.orders)
  {
    var a := s.procs[p].activity;
    assert ActivityOk(s.rows, a) && HonestActivity(s, a, id);
    WriteStatus(s.rows, a.trade, edited);
    if a.trade.id == id && a.Resolving? && a.found.None? {
      assert t.rows[id].status.Failed?;
    }
  }

  // ---------------------------------------------------------------- sending

  /** What `request` landing or being lost leaves warranted: everything about other trades. */
  lemma LandingKeepsOthers(status: TradeStatus, orders: map<string, Order>, sent: seq<OrderRequest>,
                           request: OrderRequest, landing: Option<OrderStatus>, cid: string, id: TradeId)
    requires cid != request.clientOrderId && id != request.tradeId
    requires Warranted(status, orders, cid, DryRunSent(sent, id))
    ensures Warranted(status, Land(orders, request, landing), cid, DryRunSent(sent + [request], id))
  {
    if DryRunSent(sent, id) {
      var i :| 0 <= i < |sent| && sent[i].tradeId == id && sent[i].dryRun;
      assert (sent + [request])[i] == sent[i];
    }
  }

  lemma WasSentGrows(sent: seq<OrderRequest>, request: OrderRequest, id: TradeId)
    ensures WasSent(sent + [request], request.tradeId)
    ensures request.dryRun ==> DryRunSent(sent + [request], request.tradeId)
    ensures WasSent(sent, id) ==> WasSent(sent + [request], id)
  {
    assert (sent + [request])[|sent|] == request;
    if WasSent(sent, id) {
      var i :| 0 <= i < |sent| && sent[i].tradeId == id;
      assert (sent + [request])[i] == sent[i];
    }
  }

  /** The status about to be recorded is true of the exchange after the request. */
  lemma SettledIsTrue(trade: Trade, orders: map<string, Order>, dryRun: bool, landing: Option<OrderStatus>, reply: Wire)
    requires HonestPlacement(dryRun, landing, reply) && landing != Some(DRY_RUN_VALIDATED)
    requires trade.clientOrderId !in orders
    requires trade.status.Pending? || !PlaceMarketOrder(dryRun, reply).Broke?
    ensures Warranted(Settled(trade, PlaceMarketOrder(dryRun, reply)).status,
                      Land(orders, RequestOf(trade, dryRun), landing), trade.clientOrderId, dryRun)
  {
    PlacementTaxonomy(dryRun, landing, reply);
  }

  /** The sender's own outcome is warranted by the taxonomy. */
  lemma OutcomeIsWarranted(trade: Trade, orders: map<string, Order>, sent: seq<OrderRequest>, dryRun: bool,
                           landing: Option<OrderStatus>, reply: Wire)
    requires HonestPlacement(dryRun, landing, reply) && landing != Some(DRY_RUN_VALIDATED)
    requires trade.clientOrderId !in orders && !PlaceMarketOrder(dryRun, reply).Broke?
    ensures var placement := PlaceMarketOrder(dryRun, reply); var request := RequestOf(trade, dryRun);
      PendingWarranted(Answered(trade, placement), Land(orders, request, landing), sent + [request])
  {
    WasSentGrows(sent, RequestOf(trade, dryRun), trade.id);
    SettledIsTrue(trade, orders, dryRun, landing, reply);
    assert dryRun ==> DryRunSent(sent + [RequestOf(trade, dryRun)], trade.id);
  }

  lemma SendingIsClean(config: Config, s: State, p: Pid, id: TradeId)
    requires Inv(config, s) && HonestProcs(s, id) && p in s.procs && s.procs[p].activity.Sending?
    requires s.procs[p].activity.trade.id == id
    ensures var trade := s.procs[p].activity.trade;
      && id in s.rows && Unsettled(s.rows[id].status)
      && s.rows[id].clientOrderId == trade.clientOrderId && trade.clientOrderId !in s.orders
  {
    assert ActivityOk(s.rows, s.procs[p].activity) && HonestActivity(s, s.procs[p].activity, id);
    UnsentHasNoOrder(config, s, p);
  }

  /** `p` has sent the order it held. */
  predicate Sent(s: State, t: State, p: Pid, dryRun: bool, landing: Option<OrderStatus>)
    requires p in s.procs && s.procs[p].activity.Sending?
  {
    var request := RequestOf(s.procs[p].activity.trade, dryRun);
    t.rows == s.rows && OthersStay(s.procs, t.procs, p) &&
    t.orders == Land(s.orders, request, landing) && t.sent == s.sent + [request]
  }

  /** The order of this trade goes out. */
  lemma OwnSendStaysHonest(config: Config, s: State, t: State, p: Pid, dryRun: bool, landing: Option<OrderStatus>,
                           id: TradeId)
    requires Inv(config, s) && HonestOn(s, id) && landing != Some(DRY_RUN_VALIDATED)
    requires p in s.procs && s.procs[p].activity.Sending? && s.procs[p].activity.trade.id == id
    requires Sent(s, t, p, dryRun, landing)
    requires p in t.procs ==> t.procs[p].activity.Answered? && PendingWarranted(t.procs[p].activity, t.orders, t.sent)
    ensures HonestOn(t, id)
  {
    forall q | q in t.procs
      ensures HonestActivity(t, t.procs[q].activity, id)
    {
      if q != p {
        assert HonestActivity(s, s.procs[q].activity, id);
        if Knows(s.procs[q].activity, id) {
          KnowerIsAlone(config, s, q, p, id);
        }
      }
    }
  }

  /** The order of another trade goes out. */
  lemma OtherSendStaysHonest(config: Config, s: State, t: State, p: Pid, dryRun: bool, landing: Option<OrderStatus>,
                             id: TradeId)
    requires Inv(config, s) && HonestOn(s, id) && landing != Some(DRY_RUN_VALIDATED)
    requires p in s.procs && s.procs[p].activity.Sending? && s.procs[p].activity.trade.id != id
    requires Sent(s, t, p, dryRun, landing) && (p in t.procs ==> HonestActivity(t, t.procs[p].activity, id))
    ensures HonestOn(t, id) && (WarrantedOn(s, id) ==> WarrantedOn(t, id))
  {
    var request := RequestOf(s.procs[p].activity.trade, dryRun);
    assert ActivityOk(s.rows, s.procs[p].activity);
    if id in s.rows && WarrantedOn(s, id) {
      LandingKeepsOthers(s.rows[id].status, s.orders, s.sent, request, landing, s.rows[id].clientOrderId, id);
    }
    forall q | q in t.procs
      ensures HonestActivity(t, t.procs[q].activity, id)
    {
      if q != p {
        OtherPendingKept(config, s, t, q, request, landing, id);
      }
    }
  }

  lemma OtherPendingKept(config: Config, s: State, t: State, q: Pid, request: OrderRequest,
                         landing: Option<OrderStatus>, id: TradeId)
    requires Inv(config, s) && HonestProcs(s, id) && q in s.procs && t.rows == s.rows
    requires request.tradeId != id && request.tradeId in s.rows
    requires request.clientOrderId == s.rows[request.tradeId].clientOrderId
    requires t.orders == Land(s.orders, request, landing) && t.sent == s.sent + [request]
    ensures HonestActivity(t, s.procs[q].activity, id)
  {
    var a := s.procs[q].activity;
    assert HonestActivity(s, a, id);
    if Knows(a, id) {
      assert ActivityOk(s.rows, a);
      LandingKeepsOthers(PendingStatus(a), s.orders, s.sent, request, landing, a.trade.clientOrderId, id);
      WasSentGrows(s.sent, request, id);
    }
  }

  lemma SendStepSends(s: State, p: Pid, dryRun: bool, landing: Option<OrderStatus>, reply: Wire)
    requires p in s.procs && s.procs[p].activity.Sending?
    ensures var t := SendStep(s, p, dryRun, landing, reply); var placement := PlaceMarketOrder(dryRun, reply);
      && Sent(s, t, p, dryRun, landing)
      && (p in t.procs ==> !placement.Broke? && t.procs[p].activity == Answered(s.procs[p].activity.trade, placement))
  {}

  /** A request makes a status false exactly when its order lands and its trade has been closed as FAILED. */
  lemma SendTruth(config: Config, s: State, p: Pid, dryRun: bool, landing: Option<OrderStatus>, reply: Wire,
                  id: TradeId)
    requires Inv(config, s) && HonestOn(s, id) && p in s.procs && s.procs[p].activity.Sending?
    requires HonestPlacement(dryRun, landing, reply) && landing != Some(DRY_RUN_VALIDATED)
    ensures var t := SendStep(s, p, dryRun, landing, reply); var trade := s.procs[p].activity.trade;
      && HonestOn(t, id)
      && (WarrantedOn(s, id) ==>
            (WarrantedOn(t, id) <==> !(landing.Some? && trade.id == id && id in s.rows && s.rows[id].status.Failed?)))
  {
    var trade := s.procs[p].activity.trade;
    var t := SendStep(s, p, dryRun, landing, reply);
    SendStepSends(s, p, dryRun, landing, reply);
    if trade.id == id {
      SendingIsClean(config, s, p, id);
      if p in t.procs {
        OutcomeIsWarranted(trade, s.orders, s.sent, dryRun, landing, reply);
      }
      OwnSendStaysHonest(config, s, t, p, dryRun, landing, id);
    } else {
      OtherSendStaysHonest(config, s, t, p, dryRun, landing, id);
    }
  }

  // ---------------------------------------------------------------- the other steps

  /** What an honest lookup says is warranted. */
  lemma AnswerIsWarranted(trade: Trade, orders: map<string, Order>, sent: seq<OrderRequest>, reply: Wire)
    requires HonestLookup(CurrentStatus(orders, trade.clientOrderId), reply) && RealStatuses(orders)
    ensures var answer := GetOrder(reply);
      answer.Found? ==> PendingWarranted(Resolving(trade, Some(answer.order)), orders, sent)
  {
    LookupTaxonomy(CurrentStatus(orders, trade.clientOrderId), reply);
  }

  lemma QueryStaysHonest(s: State, p: Pid, reply: Wire, id: TradeId)
    requires HonestOn(s, id) && p in s.procs && s.procs[p].activity.Asking?
    requires HonestLookup(CurrentStatus(s.orders, s.procs[p].activity.trade.clientOrderId), reply)
    ensures var t := QueryStep(s, p, reply); HonestOn(t, id) && (WarrantedOn(s, id) ==> WarrantedOn(t, id))
  {
    var trade := s.procs[p].activity.trade;
    AnswerIsWarranted(trade, s.orders, s.sent, reply);
    match GetOrder(reply)
    case Found(order) => PlainStepStaysHonest(s, Become(s, p, Resolving(trade, Some(order))), p, id);
    case NoSuchOrder => PlainStepStaysHonest(s, Become(s, p, Resolving(trade, None)), p, id);
    case _ => PlainStepStaysHonest(s, Finish(s, p), p, id);
  }

  /** Orders that are over at the exchange stay as they are there. */
  lemma MoveStaysHonest(s: State, cid: string, status: OrderStatus, id: TradeId)
    requires HonestOn(s, id) && cid in s.orders && !IsTerminal(MapStatus(s.orders[cid].status))
    requires status != DRY_RUN_VALIDATED
    ensures var t := MoveStep(s, cid, status); HonestOn(t, id) && (WarrantedOn(s, id) ==> WarrantedOn(t, id))
  {
    var t := MoveStep(s, cid, status);
    forall q | q in t.procs
      ensures HonestActivity(t, t.procs[q].activity, id)
    {
      assert HonestActivity(s, s.procs[q].activity, id);
    }
  }

  lemma SettleCommits(s: State, p: Pid)
    requires p in s.procs && s.procs[p].activity.Answered? && s.procs[p].activity.trade.id in s.rows
    ensures var a := s.procs[p].activity; var t := SettleStep(s, p);
      && t.rows == Write(s.rows, a.trade, Settled(a.trade, a.placement))
      && OthersStay(s.procs, t.procs, p) && t.sent == s.sent && t.orders == s.orders
      && (p in t.procs ==> t.procs[p].activity == Asking(Settled(a.trade, a.placement)))
      && Committed(s, t, p, Settled(a.trade, a.placement))
  {}

  lemma ResolveCommits(s: State, p: Pid)
    requires p in s.procs && s.procs[p].activity.Resolving? && s.procs[p].activity.trade.id in s.rows
    ensures var a := s.procs[p].activity; Committed(s, ResolveStep(s, p), p, Resolved(a.trade, a.found))
  {}

  lemma SettleTruth(config: Config, s: State, p: Pid, id: TradeId)
    requires Inv(config, s) && HonestOn(s, id) && p in s.procs && s.procs[p].activity.Answered?
    requires s.procs[p].activity.trade.id in s.rows
    ensures HonestOn(SettleStep(s, p), id) && (WarrantedOn(s, id) ==> WarrantedOn(SettleStep(s, p), id))
  {
    var a := s.procs[p].activity;
    SettleCommits(s, p);
    CommitStaysHonest(config, s, SettleStep(s, p), p, Settled(a.trade, a.placement), id);
    if WarrantedOn(s, id) {
      CommitTruth(config, s, SettleStep(s, p), p, Settled(a.trade, a.placement), id);
    }
  }

  lemma ResolveTruth(config: Config, s: State, p: Pid, id: TradeId)
    requires Inv(config, s) && HonestOn(s, id) && p in s.procs && s.procs[p].activity.Resolving?
    requires s.procs[p].activity.trade.id in s.rows
    ensures var a := s.procs[p].activity; var t := ResolveStep(s, p);
      && HonestOn(t, id)
      && (WarrantedOn(s, id) ==>
            (WarrantedOn(t, id) <==> !(a.trade.id == id && a.found.None? && a.trade.clientOrderId in s.orders)))
  {
    var a := s.procs[p].activity;
    ResolveCommits(s, p);
    CommitStaysHonest(config, s, ResolveStep(s, p), p, Resolved(a.trade, a.found), id);
    if WarrantedOn(s, id) {
      CommitTruth(config, s, ResolveStep(s, p), p, Resolved(a.trade, a.found), id);
    }
  }

  predicate TouchesStatus(step: Step) { step.Send? || step.Settle? || step.Resolve? || step.ExchangeMove? }

  /** Every step but these, a query and a crash leaves exchange and statuses alone. */
  lemma QuietStepStaysHonest(config: Config, s: State, step: Step, id: TradeId)
    requires RowsFiled(config, s.rows) && HonestOn(s, id) && Enabled(config, s, step)
    requires !TouchesStatus(step) && !step.Query? && !step.Crash?
    ensures var t := Next(config, s, step); HonestOn(t, id) && (WarrantedOn(s, id) ==> WarrantedOn(t, id))
  {
    QuietStep(config, s, step, id);
    PlainStepStaysHonest(s, Next(config, s, step), step.p, id);
  }

  /** What an insert, a claim, a re-read, a load or a step without a trade in hand does to other trades and
      to statuses: nothing; and whoever gains the right to send finds the row PENDING, or had it before. */
  lemma QuietStep(config: Config, s: State, step: Step, id: TradeId)
    requires RowsFiled(config, s.rows) && Enabled(config, s, step) && !TouchesStatus(step) && !step.Query?
    requires !step.Crash?
    ensures var t := Next(config, s, step);
      && t.orders == s.orders && t.sent == s.sent && OthersStay(s.procs, t.procs, step.p)
      && (id in s.rows ==> id in t.rows && t.rows[id].status == s.rows[id].status
                           && t.rows[id].clientOrderId == s.rows[id].clientOrderId)
      && (id in t.rows && id !in s.rows ==> t.rows[id].status.Pending?)
      && (step.p in t.procs ==>
            var a := t.procs[step.p].activity;
            && !a.Answered? && !a.Resolving?
            && (SendRight(a) == Some(id) ==>
                  || (id in t.rows && t.rows[id].status.Pending?)
                  || (step.p in s.procs && SendRight(s.procs[step.p].activity) == Some(id))))
  {
    if HoldsNoTrade(step) {
      NoTradeFrame(config, s, step);
    } else if step.Insert? {
      InsertIsQuiet(config, s, step, id);
    } else if step.ClaimRow? {
      ClaimIsQuiet(s, step.p, id);
    }
  }

  lemma InsertIsQuiet(config: Config, s: State, step: Step, id: TradeId)
    requires Enabled(config, s, step) && step.Insert?
    ensures var t := Next(config, s, step);
      && OthersStay(s.procs, t.procs, step.p) && t.orders == s.orders && t.sent == s.sent
      && (id in s.rows ==> id in t.rows && t.rows[id] == s.rows[id])
      && (id in t.rows && id !in s.rows ==> t.rows[id].status.Pending?)
      && (step.p in t.procs ==> t.procs[step.p].activity.Created? || t.procs[step.p].activity.Clashed?)
  {}

  lemma ClaimIsQuiet(s: State, p: Pid, id: TradeId)
    requires p in s.procs && s.procs[p].activity.Claiming?
    ensures var t := ClaimStep(s, p);
      && OthersStay(s.procs, t.procs, p) && t.orders == s.orders && t.sent == s.sent && t.rows.Keys == s.rows.Keys
      && (id in s.rows ==>
            (t.rows[id].status == s.rows[id].status && t.rows[id].clientOrderId == s.rows[id].clientOrderId))
      && (p in t.procs ==> t.procs[p].activity.Claimed?)
      && (p in t.procs && t.procs[p].activity.tradeId == id ==> id in t.rows && t.rows[id].status.Pending?)
  {}

  // ---------------------------------------------------------------- the promises

  /** Exactly when a status becomes false: with a truthful exchange, in every state a run can reach in which
      what trade `id`'s status says is true, a step makes it false if and only if it is one of the two. */
  lemma FalsifiedExactly(config: Config, s: State, step: Step, id: TradeId)
    requires Inv(config, s) && HonestOn(s, id) && Enabled(config, s, step) && Truthful(s, step)
    ensures HonestOn(Next(config, s, step), id)
    ensures WarrantedOn(s, id) ==> (WarrantedOn(Next(config, s, step), id) <==> !Falsifies(config, s, step, id))
  {
    if step.Send? {
      SendTruth(config, s, step.p, step.dryRun, step.landing, step.reply, id);
    } else if step.Settle? {
      SettleTruth(config, s, step.p, id);
    } else if step.Resolve? {
      ResolveTruth(config, s, step.p, id);
    } else if step.ExchangeMove? {
      MoveStaysHonest(s, step.clientOrderId, step.status, id);
    } else if step.Query? {
      QueryStaysHonest(s, step.p, step.reply, id);
    } else if !step.Crash? {
      QuietStepStaysHonest(config, s, step, id);
    }
  }

  /** At every moment of the run the trade's status is true. */
  predicate AlwaysWarranted(config: Config, s: State, steps: seq<Step>, id: TradeId)
    requires Run(config, s, steps)
    decreases |steps|
  {
    WarrantedOn(After(config, s, steps), id) && (steps == [] || AlwaysWarranted(config, s, steps[..|steps| - 1], id))
  }

  predicate NeverFalsified(config: Config, s: State, steps: seq<Step>, id: TradeId)
    requires Run(config, s, steps)
    decreases |steps|
  {
    steps == [] ||
    (NeverFalsified(config, s, steps[..|steps| - 1], id) &&
     !Falsifies(config, After(config, s, steps[..|steps| - 1]), steps[|steps| - 1], id))
  }

  lemma {:induction false} RunIsHonestExactly(config: Config, s: State, steps: seq<Step>, id: TradeId)
    requires Inv(config, s) && HonestOn(s, id) && WarrantedOn(s, id)
    requires Run(config, s, steps) && TruthfulRun(config, s, steps)
    ensures HonestOn(After(config, s, steps), id)
    ensures AlwaysWarranted(config, s, steps, id) <==> NeverFalsified(config, s, steps, id)
    decreases |steps|
  {
    if steps != [] {
      var earlier := steps[..|steps| - 1];
      RunIsHonestExactly(config, s, earlier, id);
      RunKeepsInv(config, s, earlier);
      FalsifiedExactly(config, After(config, s, earlier), steps[|steps| - 1], id);
    }
  }

  /** Honest statuses over whole runs, exactly: with a truthful exchange, whatever interleaves, fails or
      crashes, and whatever happens to other trades, what a trade's status says is true at every moment of
      the run if and only if none of the two steps occurs on it. */
  lemma HonestyExactly(config: Config, steps: seq<Step>, id: TradeId)
    requires Run(config, Start, steps) && TruthfulRun(config, Start, steps)
    ensures AlwaysWarranted(config, Start, steps, id) <==> NeverFalsified(config, Start, steps, id)
  {
    RunIsHonestExactly(config, Start, steps, id);
  }
}
