/** A trade that was never sent and is reconciled: it is closed, and for good. The docstring of `submit`
    (app/services/execution_queue.py) says a reconciliation run would still pick such a trade up. */
module Unsent {
  import opened Wrappers
  import opened Models
  import opened Webhook
  import opened Trading
  import opened Protocol
  import opened Queries
  import opened Safety
  import opened Truth
  import opened Lifecycle
  import opened Recovery

  /** Never submitted, and no longer PENDING. */
  predicate ClosedUnsent(t: Trade) { !t.submitted && !t.status.Pending? }

  /** The step commits an answer about trade `id` that gives it a new status. */
  predicate Closes(config: Config, s: State, step: Step, id: TradeId)
    requires Enabled(config, s, step)
  {
    step.Resolve? &&
    var a := s.procs[step.p].activity;
    a.trade.id == id && Edited(a).status != a.trade.status
  }

  lemma NewStatusIsNotPending(a: Activity)
    requires a.Answered? || a.Resolving?
    ensures Edited(a).status != a.trade.status ==> !Edited(a).status.Pending?
  {}

  /** What a commit does to a row that was not submitted. */
  lemma CommitOfUnsubmitted(row: Trade, a: Activity)
    requires (a.Answered? || a.Resolving?) && !row.submitted
    ensures var after := Flush(row, a.trade, Edited(a));
      && !after.submitted
      && (after.status.Pending? <==> row.status.Pending? && Edited(a).status == a.trade.status)
  {
    EditKeepsIdentity(a);
    NewStatusIsNotPending(a);
  }

  /** Steps other than commits and claims leave the row as it was. */
  lemma OthersLeaveRow(config: Config, s: State, step: Step, id: TradeId)
    requires Enabled(config, s, step) && id in s.rows && !step.Settle? && !step.Resolve?
    requires step.ClaimRow? ==> !Claimable(s.rows[id])
    ensures var t := Next(config, s, step); id in t.rows && t.rows[id] == s.rows[id]
  {
    if HoldsNoTrade(step) {
      NoTradeFrame(config, s, step);
    }
  }

  /** Nobody has the outcome of an order in hand for a row that was not submitted. */
  lemma NoOutcomeInHand(config: Config, s: State, p: Pid)
    requires Inv(config, s) && p in s.procs && s.procs[p].activity.Answered?
    ensures var id := s.procs[p].activity.trade.id; id in s.rows && s.rows[id].submitted
  {
    assert ActivityOk(s.rows, s.procs[p].activity);
  }

  lemma StepKeepsClosed(config: Config, s: State, step: Step, id: TradeId)
    requires Inv(config, s) && Enabled(config, s, step) && id in s.rows && ClosedUnsent(s.rows[id])
    ensures var t := Next(config, s, step); id in t.rows && ClosedUnsent(t.rows[id])
  {
    if step.Settle? || step.Resolve? {
      CommitOfUnsubmitted(s.rows[id], s.procs[step.p].activity);
    } else {
      OthersLeaveRow(config, s, step, id);
    }
  }

  lemma {:induction false} RunKeepsClosed(config: Config, s: State, steps: seq<Step>, id: TradeId)
    requires Inv(config, s) && Run(config, s, steps) && id in s.rows && ClosedUnsent(s.rows[id])
    ensures var t := After(config, s, steps); id in t.rows && ClosedUnsent(t.rows[id])
    decreases |steps|
  {
    if steps != [] {
      RunKeepsClosed(config, s, steps[..|steps| - 1], id);
      RunKeepsInv(config, s, steps[..|steps| - 1]);
      StepKeepsClosed(config, After(config, s, steps[..|steps| - 1]), steps[|steps| - 1], id);
    }
  }

  // ---------------------------------------------------------------- closed for good

  /** Absorption: once closed unsent, in every continuation (crashes, resumes, further reconciliations) the
      trade stays so, no resume selects it, its order is never sent and none of it exists. */
  lemma ClosedIsNeverSent(config: Config, before: seq<Step>, more: seq<Step>, id: TradeId)
    requires Run(config, Start, before) && id in After(config, Start, before).rows
    requires ClosedUnsent(After(config, Start, before).rows[id])
    requires Run(config, After(config, Start, before), more)
    ensures var t := After(config, After(config, Start, before), more);
      && id in t.rows && ClosedUnsent(t.rows[id])
      && id !in NeverSubmitted(t.rows)
      && !WasSent(t.sent, id) && t.rows[id].clientOrderId !in t.orders
  {
    var s := After(config, Start, before);
    RunKeepsInv(config, Start, before);
    RunKeepsInv(config, s, more);
    RunKeepsClosed(config, s, more, id);
    UnsubmittedWasNeverSent(config, After(config, s, more), id);
  }

  // ---------------------------------------------------------------- exactly when it happens

  /** A waiting trade is closed unsent by exactly one kind of step: a reconciliation of it committing an
      answer that gives it a new status. */
  lemma ClosedExactlyByReconciliation(config: Config, s: State, step: Step, id: TradeId)
    requires Inv(config, s) && Enabled(config, s, step) && id in s.rows && Claimable(s.rows[id])
    ensures var t := Next(config, s, step); id in t.rows && (ClosedUnsent(t.rows[id]) <==> Closes(config, s, step, id))
  {
    if step.Settle? {
      NoOutcomeInHand(config, s, step.p);
    } else if step.Resolve? {
      CommitOfUnsubmitted(s.rows[id], s.procs[step.p].activity);
    } else if !step.ClaimRow? {
      OthersLeaveRow(config, s, step, id);
    }
  }

  /** After any run with truthful lookups that answer can only be "no such order". */
  lemma ClosingAnswerIsNotFound(config: Config, steps: seq<Step>, step: Step, id: TradeId)
    requires Run(config, Start, steps) && TruthfulLookups(config, Start, steps)
    requires var s := After(config, Start, steps); Enabled(config, s, step) && id in s.rows && Claimable(s.rows[id])
    ensures var s := After(config, Start, steps);
      Closes(config, s, step, id) <==>
        step.Resolve? && s.procs[step.p].activity.trade.id == id && s.procs[step.p].activity.found.None?
  {
    var s := After(config, Start, steps);
    RunKeepsRecoverable(config, Start, steps);
    RunKeepsInv(config, Start, steps);
    if step.Resolve? {
      assert FoundSubmitted(s.rows, s.procs[step.p].activity) && ActivityOk(s.rows, s.procs[step.p].activity);
    }
  }

  /** At some moment of the run the trade was waiting and the step closed it. */
  predicate ClosedDuring(config: Config, s: State, steps: seq<Step>, id: TradeId)
    requires Run(config, s, steps)
    decreases |steps|
  {
    steps != [] &&
    var earlier, last := steps[..|steps| - 1], steps[|steps| - 1];
    var t := After(config, s, earlier);
    || ClosedDuring(config, s, earlier, id)
    || (id in t.rows && Claimable(t.rows[id]) && Closes(config, t, last, id))
  }

  /** Over whole runs: a waiting trade ends up closed unsent if and only if such a step met it waiting. */
  lemma {:induction false} ClosedExactly(config: Config, s: State, steps: seq<Step>, id: TradeId)
    requires Inv(config, s) && Run(config, s, steps) && id in s.rows && Claimable(s.rows[id])
    ensures var t := After(config, s, steps);
      && id in t.rows
      && (ClosedUnsent(t.rows[id]) <==> ClosedDuring(config, s, steps, id))
      && (!t.rows[id].submitted && !ClosedUnsent(t.rows[id]) ==> Claimable(t.rows[id]))
    decreases |steps|
  {
    if steps != [] {
      var earlier, last := steps[..|steps| - 1], steps[|steps| - 1];
      var t := After(config, s, earlier);
      ClosedExactly(config, s, earlier, id);
      RunKeepsInv(config, s, earlier);
      if ClosedUnsent(t.rows[id]) {
        StepKeepsClosed(config, t, last, id);
      } else if Claimable(t.rows[id]) {
        ClosedExactlyByReconciliation(config, t, last, id);
      } else {
        RunGrowsRows(config, t, [last]);
        OneMoreStep(config, t, [], last);
      }
    }
  }

  // ---------------------------------------------------------------- it does happen

  lemma NotFoundCloses(config: Config, s: State, q: Pid, id: TradeId)
    requires q in s.procs && id in s.rows && s.rows[id].id == id && Claimable(s.rows[id])
    requires s.procs[q].activity == Resolving(s.rows[id], None)
    ensures Enabled(config, s, Resolve(q))
    ensures var t := Next(config, s, Resolve(q)); id in t.rows && t.rows[id].status.Failed? && !t.rows[id].submitted
  {}

  lemma CrashThenReconcile(config: Config, s: State, q: Pid, id: TradeId) returns (steps: seq<Step>)
    requires id in s.rows && s.rows[id].id == id && Claimable(s.rows[id]) && s.rows[id].clientOrderId !in s.orders
    ensures steps == [Crash, StartReconcile(q, id), Query(q, NOT_FOUND), Resolve(q)]
    ensures Run(config, s, steps) && TruthfulRun(config, s, steps)
    ensures var t := After(config, s, steps); id in t.rows && t.rows[id].status.Failed? && !t.rows[id].submitted
  {
    OneMoreStep(config, s, [], Crash);
    steps := ReconcileNotFound(config, s, [Crash], q, id);
  }

  lemma ReconcileNotFound(config: Config, s0: State, before: seq<Step>, q: Pid, id: TradeId) returns (steps: seq<Step>)
    requires Run(config, s0, before) && TruthfulRun(config, s0, before)
    requires var s := After(config, s0, before);
      && q !in s.procs && id in s.rows && s.rows[id].id == id
      && Claimable(s.rows[id]) && s.rows[id].clientOrderId !in s.orders
    ensures steps == before + [StartReconcile(q, id)] + [Query(q, NOT_FOUND)] + [Resolve(q)]
    ensures Run(config, s0, steps) && TruthfulRun(config, s0, steps)
    ensures var t := After(config, s0, steps); id in t.rows && t.rows[id].status.Failed? && !t.rows[id].submitted
  {
    AskedBeforeSending(config, After(config, s0, before), q, id);
    steps := TwoMoreSteps(config, s0, before, StartReconcile(q, id), Query(q, NOT_FOUND));
    NotFoundCloses(config, After(config, s0, steps), q, id);
    OneMoreStep(config, s0, steps, Resolve(q));
    steps := steps + [Resolve(q)];
  }

  /** Every accepted signal has a truthful run (the process dies with the trade queued or about to be, and
      the reconciliation job comes first) that closes its trade as FAILED without ever sending it. */
  lemma AnySignalCanBeClosedUnsent(config: Config, payload: Payload) returns (steps: seq<Step>)
    requires Accepted(config, payload) && StoreNumeric(payload.quantity).Some?
    ensures Run(config, Start, steps) && TruthfulRun(config, Start, steps)
    ensures var t := After(config, Start, steps);
      1 in t.rows && t.rows[1].signalId == payload.signalId && t.rows[1].status.Failed? && !t.rows[1].submitted
  {
    var created := SignalCreatesTrade(config, payload);
    var closing := CrashThenReconcile(config, After(config, Start, created), 0, 1);
    RunKeepsInv(config, Start, created);
    RunGrowsRows(config, After(config, Start, created), closing);
    RunsCompose(config, Start, created, closing);
    steps := created + closing;
  }
}
