/** Crash recoverability: what a crash leaves behind is in exactly one of three classes, each with its
    own way forward. */
module Recovery {
  import opened Wrappers
  import opened Models
  import opened Webhook
  import opened BinanceClient
  import opened Trading
  import opened Protocol
  import opened Safety
  import opened Truth

  // ---------------------------------------------------------------- unsubmitted rows

  /** A row that was never claimed is PENDING, or FAILED because a reconciliation closed it. */
  predicate UnsubmittedOk(rows: Table) {
    forall id :: id in rows && !rows[id].submitted ==> rows[id].status.Pending? || rows[id].status.Failed?
  }

  /** An order was found only for a claimed row. */
  predicate FoundOk(rows: Table, procs: map<Pid, Proc>) {
    forall p :: p in procs ==> FoundSubmitted(rows, procs[p].activity)
  }

  predicate FoundSubmitted(rows: Table, a: Activity) {
    a.Resolving? && a.found.Some? ==> a.trade.id in rows && rows[a.trade.id].submitted
  }

  lemma FoundMoves(rows: Table, rows': Table, procs: map<Pid, Proc>, procs': map<Pid, Proc>, p: Pid)
    requires FoundOk(rows, procs) && RowsGrow(rows, rows') && OthersStay(procs, procs', p)
    requires p in procs' ==> FoundSubmitted(rows', procs'[p].activity)
    ensures FoundOk(rows', procs')
  {
    forall q | q in procs'
      ensures FoundSubmitted(rows', procs'[q].activity)
    {
      assert q != p ==> FoundSubmitted(rows, procs[q].activity);
    }
  }

  lemma CommitKeepsUnsubmitted(config: Config, s: State, p: Pid, loaded: Trade, edited: Trade)
    requires Inv(config, s) && UnsubmittedOk(s.rows) && p in s.procs && loaded.id in s.rows
    requires loaded.submitted == edited.submitted
    requires s.rows[loaded.id].submitted || edited.status.Failed?
    ensures UnsubmittedOk(Write(s.rows, loaded, edited)) && RowsGrow(s.rows, Write(s.rows, loaded, edited))
  {
    WriteGrowsRows(config, s.rows, loaded, edited);
    WriteStatus(s.rows, loaded, edited);
    assert Write(s.rows, loaded, edited)[loaded.id].submitted == s.rows[loaded.id].submitted;
  }

  lemma QueryKeepsFound(config: Config, s: State, p: Pid, reply: Wire)
    requires Inv(config, s) && FoundOk(s.rows, s.procs) && p in s.procs && s.procs[p].activity.Asking?
    requires HonestLookup(CurrentStatus(s.orders, s.procs[p].activity.trade.clientOrderId), reply)
    ensures FoundOk(s.rows, QueryStep(s, p, reply).procs)
  {
    var trade := s.procs[p].activity.trade;
    assert ActivityOk(s.rows, s.procs[p].activity);
    LookupTaxonomy(CurrentStatus(s.orders, trade.clientOrderId), reply);
    if trade.clientOrderId in s.orders {
      OrderWasSent(config, s, trade.id);
    }
    FoundMoves(s.rows, s.rows, s.procs, QueryStep(s, p, reply).procs, p);
  }

  lemma SettleKeepsRecoverable(config: Config, s: State, p: Pid)
    requires Inv(config, s) && UnsubmittedOk(s.rows) && FoundOk(s.rows, s.procs)
    requires p in s.procs && s.procs[p].activity.Answered? && s.procs[p].activity.trade.id in s.rows
    ensures var t := SettleStep(s, p); UnsubmittedOk(t.rows) && FoundOk(t.rows, t.procs)
  {
    var a := s.procs[p].activity;
    assert ActivityOk(s.rows, a);
    SettledKeepsOrder(a.trade, a.placement);
    CommitKeepsUnsubmitted(config, s, p, a.trade, Settled(a.trade, a.placement));
    FoundMoves(s.rows, SettleStep(s, p).rows, s.procs, SettleStep(s, p).procs, p);
  }

  lemma ResolveKeepsRecoverable(config: Config, s: State, p: Pid)
    requires Inv(config, s) && UnsubmittedOk(s.rows) && FoundOk(s.rows, s.procs)
    requires p in s.procs && s.procs[p].activity.Resolving? && s.procs[p].activity.trade.id in s.rows
    ensures var t := ResolveStep(s, p); UnsubmittedOk(t.rows) && FoundOk(t.rows, t.procs)
  {
    var a := s.procs[p].activity;
    assert FoundSubmitted(s.rows, a);
    CommitKeepsUnsubmitted(config, s, p, a.trade, Resolved(a.trade, a.found));
    FoundMoves(s.rows, ResolveStep(s, p).rows, s.procs, ResolveStep(s, p).procs, p);
  }

  lemma InsertKeepsRecoverable(config: Config, s: State, p: Pid, id: TradeId, createdAt: int)
    requires UnsubmittedOk(s.rows) && FoundOk(s.rows, s.procs)
    requires p in s.procs && s.procs[p].activity.Received? && id !in s.rows && Storable(s.procs[p].activity.payload)
    ensures var t := InsertStep(config, s, p, id, createdAt); UnsubmittedOk(t.rows) && FoundOk(t.rows, t.procs)
  {
    var t := InsertStep(config, s, p, id, createdAt);
    FoundMoves(s.rows, t.rows, s.procs, t.procs, p);
  }

  lemma ClaimKeepsRecoverable(config: Config, s: State, p: Pid)
    requires Inv(config, s) && UnsubmittedOk(s.rows) && FoundOk(s.rows, s.procs)
    requires p in s.procs && s.procs[p].activity.Claiming?
    ensures var t := ClaimStep(s, p); UnsubmittedOk(t.rows) && FoundOk(t.rows, t.procs)
  {
    var t := ClaimStep(s, p);
    ClaimGrowsRows(config, s.rows, s.procs[p].activity.tradeId);
    assert p in t.procs ==> t.procs[p].activity.Claimed?;
    FoundMoves(s.rows, t.rows, s.procs, t.procs, p);
  }

  lemma SendKeepsRecoverable(s: State, p: Pid, dryRun: bool, landing: Option<OrderStatus>, reply: Wire)
    requires FoundOk(s.rows, s.procs) && p in s.procs && s.procs[p].activity.Sending?
    ensures var t := SendStep(s, p, dryRun, landing, reply); t.rows == s.rows && FoundOk(t.rows, t.procs)
  {
    FoundMoves(s.rows, s.rows, s.procs, SendStep(s, p, dryRun, landing, reply).procs, p);
  }

  lemma StepKeepsRecoverable(config: Config, s: State, step: Step)
    requires Inv(config, s) && UnsubmittedOk(s.rows) && FoundOk(s.rows, s.procs)
    requires Enabled(config, s, step) && (step.Query? ==> Truthful(s, step))
    ensures var t := Next(config, s, step); UnsubmittedOk(t.rows) && FoundOk(t.rows, t.procs)
  {
    if step.Insert? {
      InsertKeepsRecoverable(config, s, step.p, step.id, step.createdAt);
    } else if step.ClaimRow? {
      ClaimKeepsRecoverable(config, s, step.p);
    } else if step.Settle? {
      SettleKeepsRecoverable(config, s, step.p);
    } else if step.Resolve? {
      ResolveKeepsRecoverable(config, s, step.p);
    } else {
      SameRowsKeepRecoverable(config, s, step);
    }
  }

  lemma SameRowsKeepRecoverable(config: Config, s: State, step: Step)
    requires Inv(config, s) && FoundOk(s.rows, s.procs) && Enabled(config, s, step)
    requires step.Query? ==> Truthful(s, step)
    requires !step.Insert? && !step.ClaimRow? && !step.Settle? && !step.Resolve?
    ensures var t := Next(config, s, step); t.rows == s.rows && FoundOk(t.rows, t.procs)
  {
    if step.Reload? {
      ReloadKeepsFound(s, step.p);
    } else if step.Send? {
      SendKeepsRecoverable(s, step.p, step.dryRun, step.landing, step.reply);
    } else if step.StartReconcile? {
      StartKeepsFound(config, s, step.p, step.id);
    } else if step.Query? {
      QueryKeepsFound(config, s, step.p, step.reply);
    } else if HoldsNoTrade(step) {
      NoTradeKeepsFound(config, s, step);
    }
  }

  lemma ReloadKeepsFound(s: State, p: Pid)
    requires FoundOk(s.rows, s.procs) && p in s.procs && s.procs[p].activity.Claimed?
    requires s.procs[p].activity.tradeId in s.rows
    ensures var t := ReloadStep(s, p); t.rows == s.rows && FoundOk(t.rows, t.procs)
  {
    FoundMoves(s.rows, s.rows, s.procs, ReloadStep(s, p).procs, p);
  }

  lemma StartKeepsFound(config: Config, s: State, p: Pid, id: TradeId)
    requires FoundOk(s.rows, s.procs) && p !in s.procs && id in s.rows
    ensures var t := Next(config, s, StartReconcile(p, id)); t.rows == s.rows && FoundOk(t.rows, t.procs)
  {
    FoundMoves(s.rows, s.rows, s.procs, Next(config, s, StartReconcile(p, id)).procs, p);
  }

  lemma NoTradeKeepsFound(config: Config, s: State, step: Step)
    requires FoundOk(s.rows, s.procs) && Enabled(config, s, step) && HoldsNoTrade(step)
    ensures var t := Next(config, s, step); t.rows == s.rows && FoundOk(t.rows, t.procs)
  {
    NoTradeFrame(config, s, step);
    FoundMoves(s.rows, s.rows, s.procs, Next(config, s, step).procs, step.p);
  }

  lemma {:induction false} RunKeepsRecoverable(config: Config, s: State, steps: seq<Step>)
    requires Inv(config, s) && UnsubmittedOk(s.rows) && FoundOk(s.rows, s.procs)
    requires Run(config, s, steps) && TruthfulLookups(config, s, steps)
    ensures var t := After(config, s, steps); UnsubmittedOk(t.rows) && FoundOk(t.rows, t.procs)
    decreases |steps|
  {
    if steps != [] {
      var earlier := steps[..|steps| - 1];
      RunKeepsRecoverable(config, s, earlier);
      RunKeepsInv(config, s, earlier);
      StepKeepsRecoverable(config, After(config, s, earlier), steps[|steps| - 1]);
    }
  }

  // ---------------------------------------------------------------- the promise

  /** What a crash can leave of a trade. */
  datatype Remains = NeverSent | InFlight | Over

  function Classify(t: Trade): Remains {
    if IsTerminal(t.status) then Over else if t.submitted then InFlight else NeverSent
  }

  /** The row a crash leaves has exactly one way forward. */
  predicate OneWayForward(s: State, row: Trade, cutoff: int) {
    && (Classify(row).NeverSent? <==> Claimable(row))
    && (Classify(row).NeverSent? ==> !WasSent(s.sent, row.id) && row.clientOrderId !in s.orders)
    && (Classify(row).NeverSent? ==> (Reconcilable(row, cutoff) <==> row.createdAt < cutoff))
    && (Classify(row).InFlight? ==> !Claimable(row) && (Reconcilable(row, cutoff) <==> row.createdAt < cutoff))
    && (Classify(row).Over? ==> !Claimable(row) && !Reconcilable(row, cutoff))
    && (!row.submitted ==> row.status.Pending? || row.status.Failed?)
  }

  lemma CrashLeavesOneWay(config: Config, s: State, id: TradeId, cutoff: int)
    requires Inv(config, s) && UnsubmittedOk(s.rows) && id in s.rows
    ensures var t := Next(config, s, Crash);
      && t.procs == map[] && t.queue == [] && t.rows == s.rows && t.orders == s.orders
      && OneWayForward(t, t.rows[id], cutoff)
  {
    UnsubmittedWasNeverSent(config, s, id);
  }

  lemma UnsubmittedWasNeverSent(config: Config, s: State, id: TradeId)
    requires Inv(config, s) && id in s.rows
    ensures !s.rows[id].submitted ==> !WasSent(s.sent, id) && s.rows[id].clientOrderId !in s.orders
  {
    if WasSent(s.sent, id) {
      var i :| 0 <= i < |s.sent| && s.sent[i].tradeId == id;
      assert FromRow(s.rows, s.sent[i]);
    }
    if s.rows[id].clientOrderId in s.orders {
      OrderWasSent(config, s, id);
    }
  }

  /** After a crash at any step of any run in which lookups are answered truthfully, whatever overlapped,
      every committed row is in one class and gets that class's treatment: what was never sent is PENDING and
      what `resume_pending` selects, what is in flight is never selected by it and is selected by
      reconciliation once old enough, what is over is selected by neither; and nothing in memory survives. */
  lemma CrashesAreRecoverable(config: Config, steps: seq<Step>, id: TradeId, cutoff: int)
    requires Run(config, Start, steps) && TruthfulLookups(config, Start, steps)
    requires id in After(config, Start, steps).rows
    ensures var s := Next(config, After(config, Start, steps), Crash);
      && s.procs == map[] && s.queue == []
      && s.rows == After(config, Start, steps).rows && s.orders == After(config, Start, steps).orders
      && OneWayForward(s, s.rows[id], cutoff)
  {
    RunKeepsRecoverable(config, Start, steps);
    RunKeepsInv(config, Start, steps);
    CrashLeavesOneWay(config, After(config, Start, steps), id, cutoff);
  }
}
