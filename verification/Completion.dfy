/** After a crash: rounds of resuming and draining, then reconciliation runs, bring every trade to a true
    end, each waiting one sent exactly once. */
module Completion {
  import opened Wrappers
  import opened Decimals
  import opened Models
  import opened Webhook
  import opened BinanceClient
  import opened Trading
  import opened Protocol
  import opened Queries
  import opened Safety
  import opened Truth
  import opened Honesty
  import opened Recovery
  import opened Execution
  import opened Sequential
  import R = Reconciliation

  // ---------------------------------------------------------------- ledgers

  /** How often a trade's order was requested. */
  function Count(sent: seq<OrderRequest>, id: TradeId): nat {
    if sent == [] then 0
    else Count(sent[..|sent| - 1], id) + if sent[|sent| - 1].tradeId == id then 1 else 0
  }

  lemma {:induction false} CountIsZero(sent: seq<OrderRequest>, id: TradeId)
    ensures Count(sent, id) == 0 <==> !WasSent(sent, id)
  {
    if sent != [] {
      var earlier := sent[..|sent| - 1];
      CountIsZero(earlier, id);
      if WasSent(earlier, id) {
        var i :| 0 <= i < |earlier| && earlier[i].tradeId == id;
        assert sent[i].tradeId == id;
      } else if sent[|sent| - 1].tradeId != id {
        forall i | 0 <= i < |sent|
          ensures sent[i].tradeId != id
        {
          if i < |earlier| { assert sent[i] == earlier[i]; }
        }
      }
    }
  }

  lemma CountGrows(sent: seq<OrderRequest>, request: OrderRequest, id: TradeId)
    ensures Count(sent + [request], id) == Count(sent, id) + if request.tradeId == id then 1 else 0
  {
    assert (sent + [request])[..|sent|] == sent;
  }

  /** Rows are filed and distinct, unsubmitted ones were never sent, and the exchange's statuses are its own. */
  predicate Sound(l: Ledger) {
    && Filed(l.rows) && RowsUnique(l.rows) && UnsubmittedOk(l.rows) && RealStatuses(l.orders)
    && forall id :: id in l.rows && !l.rows[id].submitted ==>
         (!WasSent(l.sent, id) && l.rows[id].clientOrderId !in l.orders)
  }

  /** The status recorded for the trade is true of the exchange. */
  predicate TrueOn(l: Ledger, id: TradeId) {
    id in l.rows ==> Warranted(l.rows[id].status, l.orders, l.rows[id].clientOrderId, DryRunSent(l.sent, id))
  }

  function Waiting(l: Ledger, id: TradeId): nat { if id in NeverSubmitted(l.rows) then 1 else 0 }

  /** What one ledger leaves of another as far as a trade goes: soundness, truth, and requests made plus
      request still to be made. */
  predicate Carries(l: Ledger, m: Ledger, id: TradeId) {
    && Sound(m) && m.rows.Keys == l.rows.Keys && (id in l.rows ==> SameOrder(l.rows[id], m.rows[id]))
    && (TrueOn(l, id) ==> TrueOn(m, id))
    && Count(m.sent, id) + Waiting(m, id) == Count(l.sent, id) + Waiting(l, id)
  }

  // ---------------------------------------------------------------- executing

  lemma {:induction false} MovesKeepStatusesReal(orders: map<string, Order>, moves: seq<Move>)
    requires RealStatuses(orders) && LegalMoves(orders, moves)
    ensures RealStatuses(Moved(orders, moves)) && Moved(orders, moves).Keys == orders.Keys
  {
    if moves != [] {
      MovesKeepStatusesReal(orders, moves[..|moves| - 1]);
    }
  }

  lemma {:induction false} MovesKeepTruth(orders: map<string, Order>, moves: seq<Move>,
                                          status: TradeStatus, cid: string, dry: bool)
    requires LegalMoves(orders, moves) && Warranted(status, orders, cid, dry)
    ensures Warranted(status, Moved(orders, moves), cid, dry)
  {
    if moves != [] {
      MovesKeepTruth(orders, moves[..|moves| - 1], status, cid, dry);
    }
  }

  lemma AnswerIsTrue(status: TradeStatus, orders: map<string, Order>, cid: string, dry: bool, trade: Trade,
                     query: Wire, commitFails: bool)
    requires RealStatuses(orders) && HonestLookup(CurrentStatus(orders, cid), query)
    requires trade.status == status && Warranted(status, orders, cid, dry)
    ensures Warranted(Reconciled(trade, query, commitFails).status, orders, cid, dry)
  {
    LookupTaxonomy(CurrentStatus(orders, cid), query);
  }

  /** The row a truthful submission leaves is true of the exchange it leaves. */
  lemma SubmissionIsTrue(trade: Trade, orders: map<string, Order>, fate: Fate)
    requires TruthfulSubmission(orders, trade, fate)
    requires trade.status.Pending? && trade.clientOrderId !in orders && RealStatuses(orders)
    ensures var after := Moved(Land(orders, RequestOf(trade, fate.dryRun), fate.landing), fate.moves);
      && RealStatuses(after)
      && Warranted(Submitted(trade, fate).status, after, trade.clientOrderId, fate.dryRun)
  {
    var landed := Land(orders, RequestOf(trade, fate.dryRun), fate.landing);
    var after := Moved(landed, fate.moves);
    var settled := Settled(trade, PlaceMarketOrder(fate.dryRun, fate.reply));
    SettledIsTrue(trade, orders, fate.dryRun, fate.landing, fate.reply);
    MovesKeepStatusesReal(landed, fate.moves);
    MovesKeepTruth(landed, fate.moves, settled.status, trade.clientOrderId, fate.dryRun);
    AnswerIsTrue(settled.status, after, trade.clientOrderId, fate.dryRun, settled, fate.query, fate.reconcileFails);
  }

  lemma ExecutionStaysSound(l: Ledger, x: TradeId, fate: Fate)
    requires Sound(l) && x in l.rows && Claimable(l.rows[x]) && TruthfulExecution(l, x, fate)
    ensures Sound(Execute(l, x, fate))
  {
    var m := Execute(l, x, fate);
    OutcomeIsClaimed(l.rows[x], fate);
    SubmissionNeverGuesses(l.rows[x].(submitted := true), fate);
    MovesKeepStatusesReal(Land(l.orders, RequestOf(l.rows[x], fate.dryRun), fate.landing), fate.moves);
    forall id | id in m.rows && !m.rows[id].submitted
      ensures !WasSent(m.sent, id) && m.rows[id].clientOrderId !in m.orders
    {
      assert id != x && m.rows[id] == l.rows[id];
      StillUnsent(l.sent, RequestOf(l.rows[x], fate.dryRun), id);
    }
  }

  lemma StillUnsent(sent: seq<OrderRequest>, request: OrderRequest, id: TradeId)
    requires !WasSent(sent, id) && request.tradeId != id
    ensures !WasSent(sent + [request], id)
  {
    CountIsZero(sent, id);
    CountGrows(sent, request, id);
    CountIsZero(sent + [request], id);
  }

  lemma ExecutionStaysTrue(l: Ledger, x: TradeId, fate: Fate, id: TradeId)
    requires Sound(l) && x in l.rows && Claimable(l.rows[x]) && TruthfulExecution(l, x, fate) && TrueOn(l, id)
    ensures TrueOn(Execute(l, x, fate), id)
  {
    var claimed := l.rows[x].(submitted := true);
    var request := RequestOf(claimed, fate.dryRun);
    if id == x {
      SubmissionIsTrue(claimed, l.orders, fate);
      WasSentGrows(l.sent, request, id);
      OnlyRequestOf(l.sent, request, id);
      OutcomeIsClaimed(l.rows[x], fate);
    } else if id in l.rows {
      var row := l.rows[id];
      LandingKeepsOthers(row.status, l.orders, l.sent, request, fate.landing, row.clientOrderId, id);
      MovesKeepTruth(Land(l.orders, request, fate.landing), fate.moves,
                     row.status, row.clientOrderId, DryRunSent(l.sent + [request], id));
    }
  }

  lemma OnlyRequestOf(sent: seq<OrderRequest>, request: OrderRequest, id: TradeId)
    requires !WasSent(sent, id) && request.tradeId == id
    ensures DryRunSent(sent + [request], id) <==> request.dryRun
  {
    assert (sent + [request])[|sent|] == request;
    assert forall i :: 0 <= i < |sent| ==> (sent + [request])[i] == sent[i] && sent[i].tradeId != id;
  }

  lemma ExecutionCarries(l: Ledger, x: TradeId, fate: Fate, id: TradeId)
    requires Sound(l) && TruthfulExecution(l, x, fate)
    ensures Carries(l, Execute(l, x, fate), id)
  {
    if x in l.rows && Claimable(l.rows[x]) {
      ExecutionStaysSound(l, x, fate);
      if TrueOn(l, id) { ExecutionStaysTrue(l, x, fate, id); }
      OutcomeIsClaimed(l.rows[x], fate);
      CountGrows(l.sent, RequestOf(l.rows[x].(submitted := true), fate.dryRun), id);
    }
  }

  lemma CarriesOn(l: Ledger, m: Ledger, n: Ledger, id: TradeId)
    requires Carries(l, m, id) && Carries(m, n, id)
    ensures Carries(l, n, id)
  {}

  lemma {:induction false} DrainingCarries(l: Ledger, ids: seq<TradeId>, fates: Fates, id: TradeId)
    requires Sound(l) && TruthfulDrain(l, ids, fates)
    ensures Carries(l, Drain(l, ids, fates), id)
  {
    if ids != [] {
      var earlier, last := ids[..|ids| - 1], ids[|ids| - 1];
      DrainingCarries(l, earlier, fates, id);
      ExecutionCarries(Drain(l, earlier, fates), last, fates(last), id);
      CarriesOn(l, Drain(l, earlier, fates), Drain(l, ids, fates), id);
    }
  }

  /** The exchange is truthful in every round. */
  ghost predicate TruthfulRounds(l: Ledger, capacity: nat, fates: nat -> Fates, k: nat)
    requires Filed(l.rows)
  {
    forall j :: 0 <= j < k ==> TruthfulNextRound(l, capacity, fates, j)
  }

  /** And so it is in the one after the first `k`. */
  ghost predicate TruthfulNextRound(l: Ledger, capacity: nat, fates: nat -> Fates, k: nat)
    requires Filed(l.rows)
  {
    TruthfulRound(Rounds(l, capacity, fates, k), capacity, fates(k))
  }

  ghost predicate TruthfulRound(l: Ledger, capacity: nat, fates: Fates)
    requires Filed(l.rows)
  {
    TruthfulDrain(l, ResumeIds(l.rows, capacity), fates)
  }

  lemma RoundCarries(l: Ledger, capacity: nat, fates: Fates, id: TradeId)
    requires Sound(l) && TruthfulRound(l, capacity, fates)
    ensures Carries(l, Round(l, capacity, fates), id)
  {
    DrainingCarries(l, ResumeIds(l.rows, capacity), fates, id);
  }

  lemma OneMoreRoundCarries(l: Ledger, before: Ledger, capacity: nat, fates: Fates, id: TradeId)
    requires Sound(before) && TruthfulRound(before, capacity, fates) && Carries(l, before, id)
    ensures Carries(l, Round(before, capacity, fates), id)
  {
    RoundCarries(before, capacity, fates, id);
    CarriesOn(l, before, Round(before, capacity, fates), id);
  }

  lemma NextRoundCarries(l: Ledger, capacity: nat, fates: nat -> Fates, k: nat, id: TradeId)
    requires Sound(l) && k > 0 && TruthfulNextRound(l, capacity, fates, k - 1)
    requires Carries(l, Rounds(l, capacity, fates, k - 1), id)
    ensures Carries(l, Rounds(l, capacity, fates, k), id)
  {
    RoundsUnfold(l, capacity, fates, k);
    OneMoreRoundCarries(l, Rounds(l, capacity, fates, k - 1), capacity, fates(k - 1), id);
  }

  lemma NoRoundsCarry(l: Ledger, capacity: nat, fates: nat -> Fates, id: TradeId)
    requires Sound(l)
    ensures Carries(l, Rounds(l, capacity, fates, 0), id)
  {}

  lemma {:induction false} RoundsCarry(l: Ledger, capacity: nat, fates: nat -> Fates, n: nat, k: nat, id: TradeId)
    requires Sound(l) && k <= n && TruthfulRounds(l, capacity, fates, n)
    ensures Carries(l, Rounds(l, capacity, fates, k), id)
    decreases k
  {
    if k == 0 {
      NoRoundsCarry(l, capacity, fates, id);
    } else {
      RoundsCarry(l, capacity, fates, n, k - 1, id);
      NextRoundCarries(l, capacity, fates, k, id);
    }
  }

  // ---------------------------------------------------------------- reconciling

  lemma MovesCarry(l: Ledger, moves: seq<Move>, id: TradeId)
    requires Sound(l) && LegalMoves(l.orders, moves)
    ensures Carries(l, l.(orders := Moved(l.orders, moves)), id)
  {
    MovesKeepStatusesReal(l.orders, moves);
    if id in l.rows && TrueOn(l, id) {
      MovesKeepTruth(l.orders, moves, l.rows[id].status, l.rows[id].clientOrderId, DryRunSent(l.sent, id));
    }
  }

  /** The exchange moves on, and a reconciliation run follows. */
  datatype Recheck = Recheck(moves: seq<Move>, ids: seq<TradeId>, replies: R.Replies)

  predicate AllSubmitted(rows: Table, ids: seq<TradeId>) {
    forall i :: 0 <= i < |ids| ==> ids[i] in rows && rows[ids[i]].submitted
  }

  predicate AllDistinct(ids: seq<TradeId>) { forall i, j :: 0 <= i < j < |ids| ==> ids[i] != ids[j] }

  /** What a run over submitted trades leaves of the table. */
  predicate Reconciles(rows: Table, after: Table, ids: seq<TradeId>) {
    && after.Keys == rows.Keys
    && (forall id :: id in rows ==> SameOrder(after[id], rows[id]) && after[id].submitted == rows[id].submitted)
    && (forall id :: id in rows && id !in ids ==> after[id] == rows[id])
  }

  lemma BatchReconciles(rows: Table, ids: seq<TradeId>, replies: R.Replies)
    requires Filed(rows) && AllSubmitted(rows, ids) && AllDistinct(ids)
    ensures Reconciles(rows, R.ReconcileAll(rows, ids, replies).rows, ids)
  {
    R.BatchRows(rows, ids, replies);
    forall id | id in rows
      ensures SameOrder(R.Learned(rows[id], replies(id)), rows[id])
      ensures R.Learned(rows[id], replies(id)).submitted == rows[id].submitted
    {
      R.LearningKeepsOrder(rows[id], replies(id));
    }
  }

  lemma ReconcilingStaysSound(l: Ledger, after: Table, ids: seq<TradeId>, id: TradeId)
    requires Sound(l) && AllSubmitted(l.rows, ids) && Reconciles(l.rows, after, ids)
    ensures Sound(l.(rows := after)) && Waiting(l.(rows := after), id) == Waiting(l, id)
  {}

  lemma BatchCarries(l: Ledger, ids: seq<TradeId>, replies: R.Replies, id: TradeId)
    requires Sound(l) && AllSubmitted(l.rows, ids) && AllDistinct(ids) && TruthfulReplies(l, ids, replies)
    ensures Carries(l, l.(rows := R.ReconcileAll(l.rows, ids, replies).rows), id)
  {
    var after := R.ReconcileAll(l.rows, ids, replies).rows;
    BatchReconciles(l.rows, ids, replies);
    ReconcilingStaysSound(l, after, ids, id);
    if TrueOn(l, id) && id in ids {
      LearnedIsTrue(l, ids, replies, id);
      R.BatchRows(l.rows, ids, replies);
    }
  }

  lemma LearnedIsTrue(l: Ledger, ids: seq<TradeId>, replies: R.Replies, id: TradeId)
    requires Sound(l) && TruthfulReplies(l, ids, replies) && id in ids && TrueOn(l, id)
    ensures id in l.rows
    ensures Warranted(R.Learned(l.rows[id], replies(id)).status,
                      l.orders, l.rows[id].clientOrderId, DryRunSent(l.sent, id))
  {
    AnswerIsTrue(l.rows[id].status, l.orders, l.rows[id].clientOrderId, DryRunSent(l.sent, id), l.rows[id],
                 replies(id).reply, replies(id).commitFails);
  }

  // ---------------------------------------------------------------- the end

  /** The rechecks can follow one another: legal moves, then a selection of what is eligible by then, with
      truthful answers that settle it. */
  predicate Rechecks(l: Ledger, cutoff: int, limit: nat, rechecks: seq<Recheck>)
    decreases |rechecks|
  {
    rechecks == [] ||
    var r := rechecks[0];
    && LegalMoves(l.orders, r.moves)
    && var moved := l.(orders := Moved(l.orders, r.moves));
       && R.IsBatch(l.rows, cutoff, limit, r.ids) && R.AllSettle(r.ids, r.replies)
       && TruthfulReplies(moved, r.ids, r.replies)
       && Rechecks(moved.(rows := R.ReconcileAll(l.rows, r.ids, r.replies).rows), cutoff, limit, rechecks[1..])
  }

  function Rechecked(l: Ledger, cutoff: int, limit: nat, rechecks: seq<Recheck>): Ledger
    requires Rechecks(l, cutoff, limit, rechecks)
    decreases |rechecks|
  {
    if rechecks == [] then l
    else
      var r := rechecks[0];
      Rechecked(Ledger(R.ReconcileAll(l.rows, r.ids, r.replies).rows, Moved(l.orders, r.moves), l.sent),
                cutoff, limit, rechecks[1..])
  }

  /** Everything has been submitted. */
  predicate NoneWaiting(l: Ledger) { NeverSubmitted(l.rows) == {} }

  lemma EligibleWasSubmitted(l: Ledger, cutoff: int, limit: nat, ids: seq<TradeId>)
    requires Sound(l) && NoneWaiting(l) && R.IsBatch(l.rows, cutoff, limit, ids)
    ensures AllSubmitted(l.rows, ids) && AllDistinct(ids)
  {
    forall i | 0 <= i < |ids|
      ensures ids[i] in l.rows && l.rows[ids[i]].submitted
    {
      assert ids[i] in R.Eligible(l.rows, cutoff) && ids[i] !in NeverSubmitted(l.rows);
    }
  }

  lemma RecheckCarries(l: Ledger, cutoff: int, limit: nat, r: Recheck, id: TradeId)
    requires Sound(l) && NoneWaiting(l) && LegalMoves(l.orders, r.moves) && R.IsBatch(l.rows, cutoff, limit, r.ids)
    requires TruthfulReplies(l.(orders := Moved(l.orders, r.moves)), r.ids, r.replies)
    ensures Carries(l, Ledger(R.ReconcileAll(l.rows, r.ids, r.replies).rows, Moved(l.orders, r.moves), l.sent), id)
  {
    var moved := l.(orders := Moved(l.orders, r.moves));
    EligibleWasSubmitted(l, cutoff, limit, r.ids);
    MovesCarry(l, r.moves, id);
    BatchCarries(moved, r.ids, r.replies, id);
    CarriesOn(l, moved, moved.(rows := R.ReconcileAll(l.rows, r.ids, r.replies).rows), id);
  }

  lemma StillNoneWaiting(l: Ledger, cutoff: int, limit: nat, ids: seq<TradeId>, replies: R.Replies)
    requires Sound(l) && NoneWaiting(l) && R.IsBatch(l.rows, cutoff, limit, ids)
    ensures NeverSubmitted(R.ReconcileAll(l.rows, ids, replies).rows) == {}
  {
    EligibleWasSubmitted(l, cutoff, limit, ids);
    BatchReconciles(l.rows, ids, replies);
    var after := R.ReconcileAll(l.rows, ids, replies).rows;
    forall id | id in after
      ensures !Claimable(after[id])
    {
      assert id !in NeverSubmitted(l.rows);
    }
  }

  lemma {:induction false} RechecksCarry(l: Ledger, cutoff: int, limit: nat, rechecks: seq<Recheck>, id: TradeId)
    requires Sound(l) && NoneWaiting(l) && Rechecks(l, cutoff, limit, rechecks)
    ensures Carries(l, Rechecked(l, cutoff, limit, rechecks), id)
    decreases |rechecks|
  {
    if rechecks != [] {
      var r := rechecks[0];
      var next := Ledger(R.ReconcileAll(l.rows, r.ids, r.replies).rows, Moved(l.orders, r.moves), l.sent);
      RecheckCarries(l, cutoff, limit, r, id);
      StillNoneWaiting(l, cutoff, limit, r.ids, r.replies);
      RechecksCarry(next, cutoff, limit, rechecks[1..], id);
      CarriesOn(l, next, Rechecked(l, cutoff, limit, rechecks), id);
    }
  }

  function SweepsOf(rechecks: seq<Recheck>): seq<R.Sweep> {
    seq(|rechecks|, i requires 0 <= i < |rechecks| => R.Sweep(rechecks[i].ids, rechecks[i].replies))
  }

  lemma {:induction false} RechecksAreSweeps(l: Ledger, cutoff: int, limit: nat, rechecks: seq<Recheck>)
    requires Rechecks(l, cutoff, limit, rechecks)
    ensures R.Sweeps(l.rows, cutoff, limit, SweepsOf(rechecks))
    ensures R.Swept(l.rows, cutoff, limit, SweepsOf(rechecks)) == Rechecked(l, cutoff, limit, rechecks).rows
    decreases |rechecks|
  {
    if rechecks != [] {
      var r := rechecks[0];
      assert SweepsOf(rechecks)[1..] == SweepsOf(rechecks[1..]);
      RechecksAreSweeps(Ledger(R.ReconcileAll(l.rows, r.ids, r.replies).rows, Moved(l.orders, r.moves), l.sent),
                        cutoff, limit, rechecks[1..]);
    }
  }

  lemma {:induction false} ExchangeStatusesAreReal(config: Config, steps: seq<Step>)
    requires Run(config, Start, steps) && TruthfulRun(config, Start, steps)
    ensures RealStatuses(After(config, Start, steps).orders)
    decreases |steps|
  {
    if steps != [] {
      var earlier, last := steps[..|steps| - 1], steps[|steps| - 1];
      ExchangeStatusesAreReal(config, earlier);
      StepKeepsStatusesReal(config, After(config, Start, earlier), last);
    }
  }

  lemma StepKeepsStatusesReal(config: Config, s: State, step: Step)
    requires Enabled(config, s, step) && Truthful(s, step) && RealStatuses(s.orders)
    ensures RealStatuses(Next(config, s, step).orders)
  {
    if HoldsNoTrade(step) {
      NoTradeFrame(config, s, step);
    }
  }

  /** What a truthful run leaves behind is sound. */
  lemma RunsLeaveSoundLedgers(config: Config, steps: seq<Step>)
    requires Run(config, Start, steps) && TruthfulRun(config, Start, steps)
    ensures Sound(LedgerOf(After(config, Start, steps)))
  {
    var s := After(config, Start, steps);
    RunKeepsInv(config, Start, steps);
    TruthfulRunHasTruthfulLookups(config, Start, steps);
    RunKeepsRecoverable(config, Start, steps);
    ExchangeStatusesAreReal(config, steps);
    forall id | id in s.rows && !s.rows[id].submitted
      ensures !WasSent(s.sent, id) && s.rows[id].clientOrderId !in s.orders
    {
      UnsubmittedWasNeverSent(config, s, id);
    }
  }

  /** The plan suits the ledger: enough rounds for the backlog, then enough rechecks for what is open by
      then, everything being old enough. */
  ghost predicate Suffices(l: Ledger, capacity: nat, fates: nat -> Fates, k: nat, cutoff: int, limit: nat,
                           rechecks: seq<Recheck>) {
    && Filed(l.rows) && TruthfulRounds(l, capacity, fates, k)
    && (forall id :: id in l.rows ==> l.rows[id].createdAt < cutoff)
    && k * capacity >= |NeverSubmitted(l.rows)|
    && var m := Rounds(l, capacity, fates, k);
       Rechecks(m, cutoff, limit, rechecks) && |rechecks| * limit >= |R.Eligible(m.rows, cutoff)|
  }

  ghost function Recovered(l: Ledger, capacity: nat, fates: nat -> Fates, k: nat, cutoff: int, limit: nat,
                           rechecks: seq<Recheck>): Ledger
    requires Suffices(l, capacity, fates, k, cutoff, limit, rechecks)
  {
    Rechecked(Rounds(l, capacity, fates, k), cutoff, limit, rechecks)
  }

  lemma NothingStaysOpen(l: Ledger, capacity: nat, fates: nat -> Fates, k: nat, cutoff: int, limit: nat,
                         rechecks: seq<Recheck>, id: TradeId)
    requires Sound(l) && Suffices(l, capacity, fates, k, cutoff, limit, rechecks) && id in l.rows
    ensures var end := Recovered(l, capacity, fates, k, cutoff, limit, rechecks);
      Carries(l, end, id) && IsTerminal(end.rows[id].status)
  {
    var m := Rounds(l, capacity, fates, k);
    RoundsCarry(l, capacity, fates, k, k, id);
    RoundsClearTheBacklog(l, capacity, fates, k);
    RechecksCarry(m, cutoff, limit, rechecks, id);
    CarriesOn(l, m, Rechecked(m, cutoff, limit, rechecks), id);
    RechecksAreSweeps(m, cutoff, limit, rechecks);
    R.SweepsFinish(m.rows, cutoff, limit, SweepsOf(rechecks));
    OpenWouldBeEligible(Rechecked(m, cutoff, limit, rechecks), cutoff, id);
  }

  lemma OpenWouldBeEligible(l: Ledger, cutoff: int, id: TradeId)
    requires id in l.rows && l.rows[id].createdAt < cutoff && |R.Eligible(l.rows, cutoff)| == 0
    ensures IsTerminal(l.rows[id].status)
  {
    assert id !in R.Eligible(l.rows, cutoff);
  }

  /** Recovery completes. After any truthful run, stopped by a crash at any step: with enough rounds of
      resuming and draining and then enough reconciliation runs, a truthful exchange that may move on at
      any time, and conclusive answers, every trade ends terminal; each trade that was waiting has had its
      order requested exactly once and no other trade again; and every trade whose status was true at the
      crash, as it is when neither step that falsifies one occurred, ends with a true status. */
  lemma RecoveryCompletes(config: Config, before: seq<Step>, fates: nat -> Fates, k: nat,
                          cutoff: int, limit: nat, rechecks: seq<Recheck>, id: TradeId)
    requires Run(config, Start, before) && TruthfulRun(config, Start, before)
    requires Suffices(LedgerOf(After(config, Start, before)), config.capacity, fates, k, cutoff, limit, rechecks)
    requires id in After(config, Start, before).rows
    ensures var l := LedgerOf(After(config, Start, before));
      var end := Recovered(l, config.capacity, fates, k, cutoff, limit, rechecks);
      && end.rows.Keys == l.rows.Keys && IsTerminal(end.rows[id].status)
      && Count(end.sent, id) == (if id in NeverSubmitted(l.rows) then 1 else Count(l.sent, id))
      && (TrueOn(l, id) || NeverFalsified(config, Start, before, id) ==> TrueOn(end, id))
  {
    var s := After(config, Start, before);
    RunsLeaveSoundLedgers(config, before);
    NothingStaysOpen(LedgerOf(s), config.capacity, fates, k, cutoff, limit, rechecks, id);
    CountIsZero(s.sent, id);
    NoneWaitingAtTheEnd(LedgerOf(s), config.capacity, fates, k, cutoff, limit, rechecks, id);
    HonestyExactly(config, before, id);
  }

  lemma NoneWaitingAtTheEnd(l: Ledger, capacity: nat, fates: nat -> Fates, k: nat, cutoff: int, limit: nat,
                            rechecks: seq<Recheck>, id: TradeId)
    requires Sound(l) && Suffices(l, capacity, fates, k, cutoff, limit, rechecks) && id in l.rows
    ensures Waiting(Recovered(l, capacity, fates, k, cutoff, limit, rechecks), id) == 0
  {
    NothingStaysOpen(l, capacity, fates, k, cutoff, limit, rechecks, id);
  }

  // ---------------------------------------------------------------- it can always be done

  /** Nobody can be reached. */
  const OUTAGE := Fate(false, None, [], ConnectFailed, TimedOut, false, false)

  function StatusReply(status: OrderStatus): Wire {
    Response(200, Object(Missing, status, Finite(false, 0, 0), Finite(false, 0, 0), NoCode))
  }

  /** What a truthful exchange answers about an order that is over, or is not there. */
  function PlainAnswer(orders: map<string, Order>, cid: string): Wire {
    if cid in orders then StatusReply(orders[cid].status) else NOT_FOUND
  }

  predicate OverOrAbsent(orders: map<string, Order>, cid: string) {
    cid in orders ==> IsTerminal(MapStatus(orders[cid].status))
  }

  /** The moves, and a cancellation of one order if that is still open. */
  function Cancelling(orders: map<string, Order>, moves: seq<Move>, cid: string): seq<Move> {
    if OverOrAbsent(Moved(orders, moves), cid) then moves else moves + [Move(cid, CANCELED)]
  }

  lemma CancellingEndsOne(orders: map<string, Order>, moves: seq<Move>, cid: string)
    requires LegalMoves(orders, moves) && RealStatuses(Moved(orders, moves))
    ensures var before := Moved(orders, moves);
      var more := Cancelling(orders, moves, cid); var after := Moved(orders, more);
      && LegalMoves(orders, more) && RealStatuses(after) && OverOrAbsent(after, cid)
      && forall other :: OverOrAbsent(before, other) ==> OverOrAbsent(after, other)
  {
    assert (moves + [Move(cid, CANCELED)])[..|moves|] == moves;
  }

  /** Cancelling what is still open among some trades' orders. */
  function Cancellations(orders: map<string, Order>, rows: Table, ids: seq<TradeId>): seq<Move>
    requires forall i :: 0 <= i < |ids| ==> ids[i] in rows
  {
    if ids == [] then []
    else
      Cancelling(orders, Cancellations(orders, rows, ids[..|ids| - 1]), rows[ids[|ids| - 1]].clientOrderId)
  }

  predicate AllOver(orders: map<string, Order>, rows: Table, ids: seq<TradeId>)
    requires forall i :: 0 <= i < |ids| ==> ids[i] in rows
  {
    forall i :: 0 <= i < |ids| ==> OverOrAbsent(orders, rows[ids[i]].clientOrderId)
  }

  lemma {:induction false} CancellationsEndOrders(orders: map<string, Order>, rows: Table, ids: seq<TradeId>)
    requires RealStatuses(orders) && forall i :: 0 <= i < |ids| ==> ids[i] in rows
    ensures var moves := Cancellations(orders, rows, ids);
      LegalMoves(orders, moves) && RealStatuses(Moved(orders, moves)) && AllOver(Moved(orders, moves), rows, ids)
  {
    if ids != [] {
      var before := ids[..|ids| - 1];
      CancellationsEndOrders(orders, rows, before);
      CancellingEndsOne(orders, Cancellations(orders, rows, before), rows[ids[|ids| - 1]].clientOrderId);
      assert forall i :: 0 <= i < |before| ==> before[i] == ids[i];
    }
  }

  lemma PlainAnswerSettles(orders: map<string, Order>, cid: string)
    requires RealStatuses(orders) && OverOrAbsent(orders, cid)
    ensures ConclusiveLookup(PlainAnswer(orders, cid))
    ensures HonestLookup(CurrentStatus(orders, cid), PlainAnswer(orders, cid))
  {}

  /** From anywhere there is a recheck that settles its whole batch. */
  lemma OneRecheckCanDo(l: Ledger, cutoff: int, limit: nat) returns (r: Recheck)
    requires Sound(l)
    ensures Rechecks(l, cutoff, limit, [r])
  {
    var ids := R.BatchExists(l.rows, cutoff, limit);
    assert forall i :: 0 <= i < |ids| ==> ids[i] in R.Eligible(l.rows, cutoff);
    var moves := Cancellations(l.orders, l.rows, ids);
    CancellationsEndOrders(l.orders, l.rows, ids);
    var orders := Moved(l.orders, moves);
    var replies: R.Replies :=
      id => R.Asked(PlainAnswer(orders, if id in l.rows then l.rows[id].clientOrderId else ""), false);
    forall i | 0 <= i < |ids|
      ensures ConclusiveLookup(replies(ids[i]).reply)
      ensures HonestLookup(CurrentStatus(orders, l.rows[ids[i]].clientOrderId), replies(ids[i]).reply)
    {
      PlainAnswerSettles(orders, l.rows[ids[i]].clientOrderId);
    }
    r := Recheck(moves, ids, replies);
    assert [r][1..] == [];
  }

  /** And any number of them, one after the other. */
  lemma {:induction false} RechecksExist(l: Ledger, cutoff: int, limit: nat, n: nat) returns (rechecks: seq<Recheck>)
    requires Sound(l) && NoneWaiting(l)
    ensures |rechecks| == n && Rechecks(l, cutoff, limit, rechecks)
    decreases n
  {
    if n == 0 {
      rechecks := [];
    } else {
      var r := OneRecheckCanDo(l, cutoff, limit);
      RecheckCarries(l, cutoff, limit, r, 0);
      StillNoneWaiting(l, cutoff, limit, r.ids, r.replies);
      var next := Ledger(R.ReconcileAll(l.rows, r.ids, r.replies).rows, Moved(l.orders, r.moves), l.sent);
      var rest := RechecksExist(next, cutoff, limit, n - 1);
      rechecks := [r] + rest;
      assert rechecks[1..] == rest;
    }
  }

  ghost predicate AllOut(fates: Fates) { forall id :: fates(id) == OUTAGE }

  lemma {:induction false} OutageIsTruthful(l: Ledger, ids: seq<TradeId>, fates: Fates)
    requires AllOut(fates)
    ensures TruthfulDrain(l, ids, fates)
  {
    if ids != [] {
      OutageIsTruthful(l, ids[..|ids| - 1], fates);
    }
  }

  lemma OutagesAreTruthful(l: Ledger, capacity: nat, fates: nat -> Fates, k: nat)
    requires Filed(l.rows) && forall i: nat :: AllOut(fates(i))
    ensures TruthfulRounds(l, capacity, fates, k)
  {
    forall j | 0 <= j < k
      ensures TruthfulNextRound(l, capacity, fates, j)
    {
      var m := Rounds(l, capacity, fates, j);
      OutageIsTruthful(m, ResumeIds(m.rows, capacity), fates(j));
    }
  }

  /** Recovery is always possible, whatever the queue's capacity and the batch's limit: as many rounds as
      hold everything waiting, even with the exchange out of reach, and once it is back as many
      reconciliation runs as hold every trade. */
  lemma SomePlanSuffices(l: Ledger, capacity: nat, k: nat, cutoff: int, limit: nat, n: nat)
    returns (fates: nat -> Fates, rechecks: seq<Recheck>)
    requires Sound(l) && forall id :: id in l.rows ==> l.rows[id].createdAt < cutoff
    requires k * capacity >= |NeverSubmitted(l.rows)| && n * limit >= |l.rows|
    ensures |rechecks| == n && Suffices(l, capacity, fates, k, cutoff, limit, rechecks)
  {
    fates := _ => _ => OUTAGE;
    assert forall i: nat :: AllOut(fates(i));
    OutagesAreTruthful(l, capacity, fates, k);
    RoundsCarry(l, capacity, fates, k, k, 0);
    RoundsClearTheBacklog(l, capacity, fates, k);
    var m := Rounds(l, capacity, fates, k);
    rechecks := RechecksExist(m, cutoff, limit, n);
    FewerThanRows(m.rows, cutoff);
    assert |m.rows| == |l.rows|;
  }

  lemma FewerThanRows(rows: Table, cutoff: int)
    ensures |R.Eligible(rows, cutoff)| <= |rows|
  {
    SubsetIsSmaller(R.Eligible(rows, cutoff), rows.Keys);
  }

  lemma {:induction false} SubsetIsSmaller(a: set<TradeId>, b: set<TradeId>)
    requires a <= b
    ensures |a| <= |b|
  {
    assert b == a + (b - a);
  }

  // ---------------------------------------------------------------- and it is a run

  /** The steps lead to the ledger, with nothing running and nothing queued. */
  predicate RestsAfter(config: Config, s: State, steps: seq<Step>, l: Ledger) {
    && Run(config, s, steps) && TruthfulRun(config, s, steps)
    && var t := After(config, s, steps);
       t.procs == map[] && t.queue == [] && LedgerOf(t) == l
  }

  lemma RoundIsReached(config: Config, s: State, before: seq<Step>, p: Pid, l: Ledger, fates: Fates)
    returns (steps: seq<Step>)
    requires Filed(l.rows) && TruthfulRound(l, config.capacity, fates) && RestsAfter(config, s, before, l)
    ensures RestsAfter(config, s, steps, Round(l, config.capacity, fates))
  {
    steps := RoundIsARun(config, s, before, p, fates);
  }

  ghost predicate Reachable(config: Config, s: State, l: Ledger) {
    exists steps :: RestsAfter(config, s, steps, l)
  }

  lemma NextRoundIsReachable(config: Config, s: State, p: Pid, l: Ledger, fates: nat -> Fates, k: nat)
    requires Filed(l.rows) && k > 0 && TruthfulNextRound(l, config.capacity, fates, k - 1)
    requires Reachable(config, s, Rounds(l, config.capacity, fates, k - 1))
    ensures Reachable(config, s, Rounds(l, config.capacity, fates, k))
  {
    var before :| RestsAfter(config, s, before, Rounds(l, config.capacity, fates, k - 1));
    RoundsUnfold(l, config.capacity, fates, k);
    var _ := RoundIsReached(config, s, before, p, Rounds(l, config.capacity, fates, k - 1), fates(k - 1));
  }

  lemma NothingIsReachable(config: Config, s: State, l: Ledger, capacity: nat, fates: nat -> Fates)
    requires RestsAfter(config, s, [], l) && Filed(l.rows)
    ensures Reachable(config, s, Rounds(l, capacity, fates, 0))
  {}

  lemma {:induction false} RoundsAreReachable(config: Config, s: State, p: Pid, l: Ledger, fates: nat -> Fates,
                                              n: nat, k: nat)
    requires RestsAfter(config, s, [], l) && Filed(l.rows)
    requires k <= n && TruthfulRounds(l, config.capacity, fates, n)
    ensures Reachable(config, s, Rounds(l, config.capacity, fates, k))
    decreases k
  {
    if k == 0 {
      NothingIsReachable(config, s, l, config.capacity, fates);
    } else {
      RoundsAreReachable(config, s, p, l, fates, n, k - 1);
      NextRoundIsReachable(config, s, p, l, fates, k);
    }
  }

  lemma {:induction false} RechecksAreARun(config: Config, s0: State, before: seq<Step>, p: Pid,
                                           cutoff: int, limit: nat, rechecks: seq<Recheck>) returns (steps: seq<Step>)
    requires Run(config, s0, before) && TruthfulRun(config, s0, before)
    requires var s := After(config, s0, before);
      p !in s.procs && Filed(s.rows) && Rechecks(LedgerOf(s), cutoff, limit, rechecks)
    ensures Run(config, s0, steps) && TruthfulRun(config, s0, steps)
    ensures var s := After(config, s0, before);
      LedgerOf(After(config, s0, steps)) == Rechecked(LedgerOf(s), cutoff, limit, rechecks)
    decreases |rechecks|
  {
    if rechecks == [] {
      steps := before;
    } else {
      var s, r := After(config, s0, before), rechecks[0];
      steps := MovesAreARun(config, s0, before, r.moves);
      steps := ReconcilingIsARun(config, s0, steps, p, r.ids, r.replies, |r.ids|);
      assert r.ids[..|r.ids|] == r.ids;
      R.BatchKeepsFiled(s.rows, r.ids, r.replies);
      steps := RechecksAreARun(config, s0, steps, p, cutoff, limit, rechecks[1..]);
    }
  }

  lemma RecoveryFromRest(config: Config, s: State, fates: nat -> Fates, k: nat,
                         cutoff: int, limit: nat, rechecks: seq<Recheck>) returns (steps: seq<Step>)
    requires s.procs == map[] && s.queue == []
    requires Suffices(LedgerOf(s), config.capacity, fates, k, cutoff, limit, rechecks)
    ensures Run(config, s, steps) && TruthfulRun(config, s, steps)
    ensures LedgerOf(After(config, s, steps)) ==
              Recovered(LedgerOf(s), config.capacity, fates, k, cutoff, limit, rechecks)
  {
    RoundsAreReachable(config, s, 0, LedgerOf(s), fates, k, k);
    var rounds :| RestsAfter(config, s, rounds, Rounds(LedgerOf(s), config.capacity, fates, k));
    steps := RechecksAreARun(config, s, rounds, 0, cutoff, limit, rechecks);
  }

  /** The recovery just described continues the crashed run: the whole is a run with a truthful exchange,
      so everything proved of those holds up to the end of the recovery. */
  lemma RecoveryIsARun(config: Config, before: seq<Step>, fates: nat -> Fates, k: nat,
                       cutoff: int, limit: nat, rechecks: seq<Recheck>) returns (steps: seq<Step>)
    requires Run(config, Start, before) && TruthfulRun(config, Start, before)
    requires Suffices(LedgerOf(After(config, Start, before)), config.capacity, fates, k, cutoff, limit, rechecks)
    ensures before + [Crash] <= steps && Run(config, Start, steps) && TruthfulRun(config, Start, steps)
    ensures LedgerOf(After(config, Start, steps)) ==
              Recovered(LedgerOf(After(config, Start, before)), config.capacity, fates, k, cutoff, limit, rechecks)
  {
    OneMoreStep(config, Start, before, Crash);
    var crashed := before + [Crash];
    var recovery := RecoveryFromRest(config, After(config, Start, crashed), fates, k, cutoff, limit, rechecks);
    RunsCompose(config, Start, crashed, recovery);
    steps := crashed + recovery;
  }
}
