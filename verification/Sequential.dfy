/** Executing queued trades one after the other is one of the protocol's runs, so everything proved of
    every run holds of it. */
module Sequential {
  import opened Wrappers
  import opened Models
  import opened Webhook
  import opened BinanceClient
  import opened Trading
  import opened Protocol
  import opened Safety
  import opened Truth
  import opened Queries
  import opened Execution
  import R = Reconciliation
  import Refinement

  function LedgerOf(s: State): Ledger { Ledger(s.rows, s.orders, s.sent) }

  // ---------------------------------------------------------------- a truthful exchange

  /** The exchange is truthful throughout one submission: in its reply, in how orders move afterwards, and
      in what it then says of the order. */
  predicate TruthfulSubmission(orders: map<string, Order>, trade: Trade, fate: Fate) {
    var landed := Land(orders, RequestOf(trade, fate.dryRun), fate.landing);
    && HonestPlacement(fate.dryRun, fate.landing, fate.reply) && fate.landing != Some(DRY_RUN_VALIDATED)
    && LegalMoves(landed, fate.moves)
    && HonestLookup(CurrentStatus(Moved(landed, fate.moves), trade.clientOrderId), fate.query)
  }

  predicate TruthfulExecution(l: Ledger, id: TradeId, fate: Fate) {
    id in l.rows && Claimable(l.rows[id]) ==> TruthfulSubmission(l.orders, l.rows[id].(submitted := true), fate)
  }

  predicate TruthfulDrain(l: Ledger, ids: seq<TradeId>, fates: Fates) {
    ids == [] ||
    var earlier, last := ids[..|ids| - 1], ids[|ids| - 1];
    TruthfulDrain(l, earlier, fates) && TruthfulExecution(Drain(l, earlier, fates), last, fates(last))
  }

  predicate TruthfulReplies(l: Ledger, ids: seq<TradeId>, replies: R.Replies) {
    forall i :: 0 <= i < |ids| ==> ids[i] in l.rows && TruthfulAnswer(l, ids[i], replies(ids[i]).reply)
  }

  predicate TruthfulAnswer(l: Ledger, id: TradeId, reply: Wire)
    requires id in l.rows
  {
    HonestLookup(CurrentStatus(l.orders, l.rows[id].clientOrderId), reply)
  }

  // ---------------------------------------------------------------- one execution

  lemma {:induction false} MovesAreARun(config: Config, s0: State, before: seq<Step>, moves: seq<Move>)
    returns (steps: seq<Step>)
    requires Run(config, s0, before)
    ensures Run(config, s0, steps)
    ensures var s := After(config, s0, before); After(config, s0, steps) == s.(orders := Moved(s.orders, moves))
    ensures TruthfulRun(config, s0, before) && LegalMoves(After(config, s0, before).orders, moves) ==>
              TruthfulRun(config, s0, steps)
    decreases |moves|
  {
    if moves == [] {
      steps := before;
    } else {
      var m := moves[|moves| - 1];
      steps := MovesAreARun(config, s0, before, moves[..|moves| - 1]);
      if m.clientOrderId in After(config, s0, steps).orders {
        OneMoreStep(config, s0, steps, ExchangeMove(m.clientOrderId, m.status));
        steps := steps + [ExchangeMove(m.clientOrderId, m.status)];
      }
    }
  }

  /** `t` has the same coroutines and queue as `s` would have without `p`. */
  predicate Ended(s: State, p: Pid, t: State) {
    t.procs == s.procs - {p} && t.queue == s.queue
  }

  lemma AnswerResolves(s: State, p: Pid, fate: Fate)
    requires p in s.procs && s.procs[p].activity.Resolving?
    requires var a := s.procs[p].activity; a.trade.id in s.rows && s.rows[a.trade.id] == a.trade
    requires var a := s.procs[p].activity;
      !IsTerminal(a.trade.status) && GetOrder(fate.query) == if a.found.Some? then Found(a.found.value) else NoSuchOrder
    ensures var a := s.procs[p].activity; var t := if fate.reconcileFails then Finish(s, p) else ResolveStep(s, p);
      && Ended(s, p, t)
      && LedgerOf(t) == LedgerOf(s).(rows := s.rows[a.trade.id := Reconciled(a.trade, fate.query, fate.reconcileFails)])
  {
    var a := s.procs[p].activity;
    ResolvedKeepsOrder(a.trade, a.found);
    FlushOfCurrent(a.trade, Resolved(a.trade, a.found));
  }

  /** From a reconciliation about to ask, with its row unchanged, to its end. */
  lemma FinishAsking(config: Config, s0: State, steps: seq<Step>, p: Pid, fate: Fate) returns (more: seq<Step>)
    requires Run(config, s0, steps)
    requires var s := After(config, s0, steps);
      && p in s.procs && s.procs[p].activity.Asking?
      && var trade := s.procs[p].activity.trade;
         trade.id in s.rows && s.rows[trade.id] == trade && !IsTerminal(trade.status)
    ensures Run(config, s0, more)
    ensures var s := After(config, s0, steps); var t := After(config, s0, more); var trade := s.procs[p].activity.trade;
      && Ended(s, p, t)
      && LedgerOf(t) == LedgerOf(s).(rows := s.rows[trade.id := Reconciled(trade, fate.query, fate.reconcileFails)])
    ensures var s := After(config, s0, steps);
      TruthfulRun(config, s0, steps) &&
      HonestLookup(CurrentStatus(s.orders, s.procs[p].activity.trade.clientOrderId), fate.query) ==>
        TruthfulRun(config, s0, more)
  {
    OneMoreStep(config, s0, steps, Query(p, fate.query));
    more := steps + [Query(p, fate.query)];
    AnswerOrEnd(After(config, s0, steps), p, fate);
    var asked := After(config, s0, more);
    if p in asked.procs {
      var last := if fate.reconcileFails then Abort(p) else Resolve(p);
      OneMoreStep(config, s0, more, last);
      more := more + [last];
      AnswerResolves(asked, p, fate);
    }
  }

  lemma AnswerOrEnd(s: State, p: Pid, fate: Fate)
    requires p in s.procs && s.procs[p].activity.Asking? && !IsTerminal(s.procs[p].activity.trade.status)
    ensures var trade := s.procs[p].activity.trade; var t := QueryStep(s, p, fate.query);
      && LedgerOf(t) == LedgerOf(s) && t.queue == s.queue && t.procs - {p} == s.procs - {p}
      && if p in t.procs
         then && t.procs[p].activity.Resolving? && t.procs[p].activity.trade == trade
              && var found := t.procs[p].activity.found;
                 GetOrder(fate.query) == if found.Some? then Found(found.value) else NoSuchOrder
         else t.procs == s.procs - {p} && Reconciled(trade, fate.query, fate.reconcileFails) == trade
  {}

  lemma OutcomeCommits(s: State, p: Pid)
    requires p in s.procs && s.procs[p].activity.Answered?
    requires var trade := s.procs[p].activity.trade; trade.id in s.rows && s.rows[trade.id] == trade
    ensures var a := s.procs[p].activity; var settled := Settled(a.trade, a.placement); var t := SettleStep(s, p);
      && LedgerOf(t) == LedgerOf(s).(rows := s.rows[a.trade.id := settled])
      && SameOrder(settled, a.trade)
      && t.procs - {p} == s.procs - {p} && t.queue == s.queue
      && if IsUncertain(a.placement)
         then p in t.procs && t.procs[p].activity == Asking(settled) && settled.status.Unknown?
         else p !in t.procs
  {
    var a := s.procs[p].activity;
    SettledKeepsOrder(a.trade, a.placement);
    FlushOfCurrent(a.trade, Settled(a.trade, a.placement));
  }

  /** From the reply in hand to the end of the submission. */
  lemma FinishAnswered(config: Config, s0: State, steps: seq<Step>, p: Pid, fate: Fate) returns (more: seq<Step>)
    requires Run(config, s0, steps)
    requires var s := After(config, s0, steps);
      && p in s.procs && s.procs[p].activity.Answered?
      && s.procs[p].activity.placement == PlaceMarketOrder(fate.dryRun, fate.reply)
      && var trade := s.procs[p].activity.trade; trade.id in s.rows && s.rows[trade.id] == trade
    ensures Run(config, s0, more)
    ensures var s := After(config, s0, steps); var t := After(config, s0, more); var trade := s.procs[p].activity.trade;
      && Ended(s, p, t)
      && LedgerOf(t) == LedgerOf(s).(rows := s.rows[trade.id := Submitted(trade, fate)])
    ensures var s := After(config, s0, steps);
      TruthfulRun(config, s0, steps) &&
      HonestLookup(CurrentStatus(s.orders, s.procs[p].activity.trade.clientOrderId), fate.query) ==>
        TruthfulRun(config, s0, more)
  {
    var s := After(config, s0, steps);
    if fate.settleFails {
      OneMoreStep(config, s0, steps, Abort(p));
      more := steps + [Abort(p)];
    } else {
      OneMoreStep(config, s0, steps, Settle(p));
      more := steps + [Settle(p)];
      OutcomeCommits(s, p);
      if p in After(config, s0, more).procs {
        more := FinishAsking(config, s0, more, p, fate);
      }
    }
  }

  /** The request is sent, and orders move until the caller goes on. */
  lemma SendThenMoves(config: Config, s0: State, steps: seq<Step>, p: Pid, fate: Fate) returns (more: seq<Step>)
    requires Run(config, s0, steps)
    requires var s := After(config, s0, steps); p in s.procs && s.procs[p].activity.Sending?
    ensures Run(config, s0, more)
    ensures var s := After(config, s0, steps); var sent := SendStep(s, p, fate.dryRun, fate.landing, fate.reply);
      After(config, s0, more) == sent.(orders := Moved(sent.orders, fate.moves))
    ensures var s := After(config, s0, steps);
      TruthfulRun(config, s0, steps) && TruthfulSubmission(s.orders, s.procs[p].activity.trade, fate) ==>
        TruthfulRun(config, s0, more)
  {
    var send := Send(p, fate.dryRun, fate.landing, fate.reply);
    OneMoreStep(config, s0, steps, send);
    more := MovesAreARun(config, s0, steps + [send], fate.moves);
  }

  /** From a claimed trade in hand to the end of its submission. */
  lemma FinishSending(config: Config, s0: State, steps: seq<Step>, p: Pid, fate: Fate) returns (more: seq<Step>)
    requires Run(config, s0, steps)
    requires var s := After(config, s0, steps);
      && p in s.procs && s.procs[p].activity.Sending?
      && var trade := s.procs[p].activity.trade; trade.id in s.rows && s.rows[trade.id] == trade
    ensures Run(config, s0, more)
    ensures var s := After(config, s0, steps); var t := After(config, s0, more); var trade := s.procs[p].activity.trade;
      && Ended(s, p, t)
      && LedgerOf(t) == Ledger(s.rows[trade.id := Submitted(trade, fate)],
                               Moved(Land(s.orders, RequestOf(trade, fate.dryRun), fate.landing), fate.moves),
                               s.sent + [RequestOf(trade, fate.dryRun)])
    ensures var s := After(config, s0, steps);
      TruthfulRun(config, s0, steps) && TruthfulSubmission(s.orders, s.procs[p].activity.trade, fate) ==>
        TruthfulRun(config, s0, more)
  {
    more := SendThenMoves(config, s0, steps, p, fate);
    if !PlaceMarketOrder(fate.dryRun, fate.reply).Broke? {
      more := FinishAnswered(config, s0, more, p, fate);
    }
  }

  lemma TakenAndClaimed(s: State, p: Pid)
    requires s.queue != [] && p !in s.procs && Filed(s.rows)
    ensures var entry := s.queue[0]; var id := entry.tradeId; var t := ClaimStep(DequeueStep(s, p), p);
      && t.rows == Claim(s.rows, id) && t.orders == s.orders && t.sent == s.sent && t.queue == s.queue[1..]
      && t.procs - {p} == s.procs
      && if id in s.rows && Claimable(s.rows[id])
         then p in t.procs && t.procs[p].activity == Claimed(id)
         else p !in t.procs
  {
    assert s.procs[p := Proc(Claiming(s.queue[0].tradeId), Some(s.queue[0].ticket))] - {p} == s.procs;
  }

  /** A worker takes the next entry, and the trade if it is still waiting. */
  lemma TakingIsARun(config: Config, s0: State, steps: seq<Step>, p: Pid) returns (more: seq<Step>)
    requires Run(config, s0, steps)
    requires var s := After(config, s0, steps); s.queue != [] && p !in s.procs && Filed(s.rows)
    ensures Run(config, s0, more)
    ensures var s := After(config, s0, steps); var t := After(config, s0, more); var id := s.queue[0].tradeId;
      && t.rows == Claim(s.rows, id) && t.orders == s.orders && t.sent == s.sent && t.queue == s.queue[1..]
      && t.procs - {p} == s.procs
      && if id in s.rows && Claimable(s.rows[id])
         then p in t.procs && t.procs[p].activity == Sending(t.rows[id])
         else p !in t.procs
    ensures TruthfulRun(config, s0, steps) ==> TruthfulRun(config, s0, more)
  {
    var s := After(config, s0, steps);
    TakenAndClaimed(s, p);
    OneMoreStep(config, s0, steps, Dequeue(p));
    more := steps + [Dequeue(p)];
    OneMoreStep(config, s0, more, ClaimRow(p));
    more := more + [ClaimRow(p)];
    if p in After(config, s0, more).procs {
      OneMoreStep(config, s0, more, Reload(p));
      more := more + [Reload(p)];
    }
  }

  /** A worker taking the next entry and executing it is a run with exactly that effect. */
  lemma ExecutionIsARun(config: Config, s0: State, steps: seq<Step>, p: Pid, fate: Fate) returns (more: seq<Step>)
    requires Run(config, s0, steps)
    requires var s := After(config, s0, steps); s.queue != [] && p !in s.procs && Filed(s.rows)
    ensures Run(config, s0, more)
    ensures var s := After(config, s0, steps); var t := After(config, s0, more);
      && t.procs == s.procs && t.queue == s.queue[1..]
      && LedgerOf(t) == Execute(LedgerOf(s), s.queue[0].tradeId, fate)
    ensures var s := After(config, s0, steps);
      TruthfulRun(config, s0, steps) && TruthfulExecution(LedgerOf(s), s.queue[0].tradeId, fate) ==>
        TruthfulRun(config, s0, more)
  {
    var s := After(config, s0, steps);
    var id := s.queue[0].tradeId;
    ExecuteIsClaimThenSubmit(LedgerOf(s), id, fate);
    more := TakingIsARun(config, s0, steps, p);
    if id in s.rows && Claimable(s.rows[id]) {
      more := FinishSending(config, s0, more, p, fate);
    }
  }

  /** One worker draining the first `n` entries is a run with the effect of `Drain`. */
  lemma {:induction false} DrainingIsARun(config: Config, s0: State, before: seq<Step>, p: Pid, fates: Fates, n: nat)
    returns (steps: seq<Step>)
    requires Run(config, s0, before)
    requires var s := After(config, s0, before); p !in s.procs && Filed(s.rows) && n <= |s.queue|
    ensures Run(config, s0, steps)
    ensures var s := After(config, s0, before); var t := After(config, s0, steps);
      && t.procs == s.procs && t.queue == s.queue[n..]
      && LedgerOf(t) == Drain(LedgerOf(s), TradeIds(s.queue[..n]), fates)
    ensures var s := After(config, s0, before);
      TruthfulRun(config, s0, before) && TruthfulDrain(LedgerOf(s), TradeIds(s.queue[..n]), fates) ==>
        TruthfulRun(config, s0, steps)
    decreases n
  {
    if n == 0 {
      steps := before;
    } else {
      var s := After(config, s0, before);
      steps := DrainingIsARun(config, s0, before, p, fates, n - 1);
      var earlier := TradeIds(s.queue[..n - 1]);
      var id := s.queue[n - 1].tradeId;
      assert TradeIds(s.queue[..n]) == earlier + [id];
      DrainKeepsFiled(LedgerOf(s), earlier, fates);
      steps := ExecutionIsARun(config, s0, steps, p, fates(id));
    }
  }

  lemma ResumeFillsQueue(config: Config, s: State, p: Pid)
    requires p !in s.procs && s.queue == [] && Filed(s.rows)
    ensures var ids := ResumeIds(s.rows, config.capacity);
      var t := ResumeStep(Spawn(s, p, Resuming(ids), None), config.capacity, p);
      t.procs == s.procs && LedgerOf(t) == LedgerOf(s) && TradeIds(t.queue) == ids
  {
    var ids := ResumeIds(s.rows, config.capacity);
    var resumed := Finish(Spawn(s, p, Resuming(ids), None), p);
    SpawnedAndFinished(s, p, Resuming(ids));
    PutAllFrame(resumed, config.capacity, ids);
    ResumeIsNeverRefused(resumed, config.capacity);
  }

  lemma SpawnedAndFinished(s: State, p: Pid, activity: Activity)
    requires p !in s.procs
    ensures var t := Finish(Spawn(s, p, activity, None), p);
      t.procs == s.procs && LedgerOf(t) == LedgerOf(s) && t.queue == s.queue
  {
    assert s.procs[p := Proc(activity, None)] - {p} == s.procs;
  }

  lemma ResumeIsEnabled(config: Config, s: State, p: Pid)
    requires p !in s.procs && Filed(s.rows)
    ensures Enabled(config, s, ResumeSelect(p, ResumeIds(s.rows, config.capacity)))
  {
    var ids := ResumeIds(s.rows, config.capacity);
    assert forall i :: 0 <= i < |ids| ==> ids[i] in ids && ids[i] in NeverSubmitted(s.rows);
  }

  /** Resuming on an empty queue and draining it is a run with the effect of a round. */
  lemma RoundIsARun(config: Config, s0: State, before: seq<Step>, p: Pid, fates: Fates) returns (steps: seq<Step>)
    requires Run(config, s0, before)
    requires var s := After(config, s0, before); p !in s.procs && s.queue == [] && Filed(s.rows)
    ensures Run(config, s0, steps)
    ensures var s := After(config, s0, before); var t := After(config, s0, steps);
      t.procs == s.procs && t.queue == [] && LedgerOf(t) == Round(LedgerOf(s), config.capacity, fates)
    ensures var s := After(config, s0, before);
      TruthfulRun(config, s0, before) &&
      TruthfulDrain(LedgerOf(s), ResumeIds(s.rows, config.capacity), fates) ==>
        TruthfulRun(config, s0, steps)
  {
    var s := After(config, s0, before);
    steps := ResumingIsARun(config, s0, before, p);
    var t := After(config, s0, steps);
    assert t.queue[..|t.queue|] == t.queue;
    steps := DrainingIsARun(config, s0, steps, p, fates, |t.queue|);
  }

  lemma ResumingIsARun(config: Config, s0: State, before: seq<Step>, p: Pid) returns (steps: seq<Step>)
    requires Run(config, s0, before)
    requires var s := After(config, s0, before); p !in s.procs && s.queue == [] && Filed(s.rows)
    ensures Run(config, s0, steps)
    ensures var s := After(config, s0, before); var t := After(config, s0, steps);
      t.procs == s.procs && LedgerOf(t) == LedgerOf(s) && TradeIds(t.queue) == ResumeIds(s.rows, config.capacity)
    ensures TruthfulRun(config, s0, before) ==> TruthfulRun(config, s0, steps)
  {
    var s := After(config, s0, before);
    var ids := ResumeIds(s.rows, config.capacity);
    ResumeIsEnabled(config, s, p);
    ResumeFillsQueue(config, s, p);
    OneMoreStep(config, s0, before, ResumeSelect(p, ids));
    steps := before + [ResumeSelect(p, ids)];
    OneMoreStep(config, s0, steps, ResumeSubmit(p));
    steps := steps + [ResumeSubmit(p)];
  }

  /** Reconciling one trade with nothing else touching it is a run with exactly that effect. */
  lemma ReconcilingOneIsARun(config: Config, s0: State, before: seq<Step>, p: Pid, id: TradeId, asked: R.Asked)
    returns (steps: seq<Step>)
    requires Run(config, s0, before)
    requires var s := After(config, s0, before); p !in s.procs && id in s.rows && Filed(s.rows)
    ensures Run(config, s0, steps)
    ensures var s := After(config, s0, before); var t := After(config, s0, steps);
      && t.procs == s.procs && t.queue == s.queue
      && LedgerOf(t) == LedgerOf(s).(rows := s.rows[id := R.Learned(s.rows[id], asked)])
    ensures TruthfulRun(config, s0, before) && TruthfulAnswer(LedgerOf(After(config, s0, before)), id, asked.reply) ==>
              TruthfulRun(config, s0, steps)
  {
    var s := After(config, s0, before);
    OneMoreStep(config, s0, before, StartReconcile(p, id));
    steps := before + [StartReconcile(p, id)];
    if IsTerminal(s.rows[id].status) {
      assert s.rows[id := s.rows[id]] == s.rows;
    } else {
      assert s.procs[p := Proc(Asking(s.rows[id]), None)] - {p} == s.procs;
      var fate := Fate(false, None, [], TimedOut, asked.reply, false, asked.commitFails);
      steps := FinishAsking(config, s0, steps, p, fate);
    }
  }

  /** One more trade of a batch, unless an exception has ended it: its row is as the run found it. */
  lemma NextTradeIsARun(config: Config, s0: State, before: seq<Step>, p: Pid,
                        rows: Table, ids: seq<TradeId>, replies: R.Replies, n: nat) returns (steps: seq<Step>)
    requires Run(config, s0, before) && p !in After(config, s0, before).procs
    requires Filed(rows) && (forall i :: 0 <= i < |ids| ==> ids[i] in rows) && n < |ids|
    requires After(config, s0, before).rows == R.ReconcileAll(rows, ids[..n], replies).rows
    requires forall i, j :: 0 <= i < j < |ids| ==> ids[i] != ids[j]
    ensures Run(config, s0, steps)
    ensures var s := After(config, s0, before); var t := After(config, s0, steps);
      && t.procs == s.procs && t.queue == s.queue
      && LedgerOf(t) == LedgerOf(s).(rows := R.ReconcileAll(rows, ids[..n + 1], replies).rows)
    ensures var l := LedgerOf(After(config, s0, before)).(rows := rows);
      TruthfulRun(config, s0, before) && TruthfulAnswer(l, ids[n], replies(ids[n]).reply) ==>
        TruthfulRun(config, s0, steps)
  {
    assert ids[..n + 1][..n] == ids[..n];
    var b := R.ReconcileAll(rows, ids[..n], replies);
    if b.raised {
      steps := before;
    } else {
      R.NotYetReached(rows, ids, replies, n);
      R.OneMoreTrade(rows, ids, replies, n);
      R.BatchKeepsFiled(rows, ids[..n], replies);
      R.RecordedOverCurrent(b.rows, b.rows[ids[n]], replies(ids[n]));
      steps := ReconcilingOneIsARun(config, s0, before, p, ids[n], replies(ids[n]));
    }
  }

  /** A reconciliation run over the first `n` trades of a batch is a run of the protocol with the effect of
      the batch function, early end included. */
  lemma {:induction false} ReconcilingIsARun(config: Config, s0: State, before: seq<Step>, p: Pid,
                                             ids: seq<TradeId>, replies: R.Replies, n: nat) returns (steps: seq<Step>)
    requires Run(config, s0, before)
    requires var s := After(config, s0, before);
      && p !in s.procs && Filed(s.rows) && (forall i :: 0 <= i < |ids| ==> ids[i] in s.rows)
      && (forall i, j :: 0 <= i < j < |ids| ==> ids[i] != ids[j])
    requires n <= |ids|
    ensures Run(config, s0, steps)
    ensures var s := After(config, s0, before); var t := After(config, s0, steps);
      && t.procs == s.procs && t.queue == s.queue
      && LedgerOf(t) == LedgerOf(s).(rows := R.ReconcileAll(s.rows, ids[..n], replies).rows)
    ensures TruthfulRun(config, s0, before) && TruthfulReplies(LedgerOf(After(config, s0, before)), ids, replies) ==>
              TruthfulRun(config, s0, steps)
    decreases n
  {
    if n == 0 {
      steps := before;
    } else {
      steps := ReconcilingIsARun(config, s0, before, p, ids, replies, n - 1);
      steps := NextTradeIsARun(config, s0, steps, p, After(config, s0, before).rows, ids, replies, n - 1);
    }
  }

  /** The inline mode of the refinement theorem is inserting the row and executing it at once. */
  lemma InlineIsInsertThenExecute(config: Config, script: Refinement.Script, w: Refinement.World,
                                  e: Refinement.Entered, sent: seq<OrderRequest>)
    requires Storable(e.payload) && !Clashes(w.rows, e.payload.signalId, config.clientOrderId(e.payload.signalId))
    ensures var row := NewTrade(config, e.payload, e.id, e.createdAt);
      var end := Execute(Ledger(w.rows[e.id := row], w.orders, sent), e.id, Refinement.FateOf(script, row));
      Refinement.InlineOne(config, script, w, e) == Refinement.World(end.rows, end.orders)
  {
    var row := NewTrade(config, e.payload, e.id, e.createdAt);
    var end := Submitted(row.(submitted := true), Refinement.FateOf(script, row));
    assert w.rows[e.id := row][e.id := end] == w.rows[e.id := end];
  }
}
