/** The discipline that keeps statuses honest, and what happens without it: no reconciliation of a trade
    holds the answer "no such order" while the trade is claimed and not yet sent. */
module Hazard {
  import opened Wrappers
  import opened Models
  import opened Webhook
  import opened BinanceClient
  import opened Trading
  import opened Protocol
  import opened Safety
  import opened Truth
  import opened Honesty

  /** A reconciliation of the trade has been told "no such order" and not yet committed, while another
      coroutine has claimed the trade and not yet sent it. */
  predicate HazardOn(s: State, id: TradeId) {
    exists p, q :: p in s.procs && q in s.procs && ToldNothing(s.procs[p].activity, id)
      && SendRight(s.procs[q].activity) == Some(id)
  }

  predicate ToldNothing(a: Activity, id: TradeId) { a.Resolving? && a.found.None? && a.trade.id == id }

  /** No moment of the run but perhaps the last has the hazard on this trade. */
  predicate HazardFreeRun(config: Config, s: State, steps: seq<Step>, id: TradeId)
    requires Run(config, s, steps)
    decreases |steps|
  {
    steps == [] ||
    (HazardFreeRun(config, s, steps[..|steps| - 1], id) && !HazardOn(After(config, s, steps[..|steps| - 1]), id))
  }

  // ---------------------------------------------------------------- without hazard

  /** Whoever may still send the trade finds it PENDING, and whoever was told there is no order was told so
      of an order that still does not exist. */
  predicate UndisturbedBy(s: State, a: Activity, id: TradeId) {
    && (SendRight(a) == Some(id) ==> id in s.rows && s.rows[id].status.Pending?)
    && (ToldNothing(a, id) ==> a.trade.clientOrderId !in s.orders)
  }

  predicate Undisturbed(s: State, id: TradeId) {
    forall p :: p in s.procs ==> UndisturbedBy(s, s.procs[p].activity, id)
  }

  /** Neither the trade's status nor the existence of orders changes. */
  lemma PlainStepStaysUndisturbed(s: State, t: State, p: Pid, id: TradeId)
    requires Undisturbed(s, id) && OthersStay(s.procs, t.procs, p) && t.orders.Keys == s.orders.Keys
    requires id in s.rows ==> id in t.rows && t.rows[id].status == s.rows[id].status
    requires p in t.procs ==>
      || UndisturbedBy(t, t.procs[p].activity, id)
      || (p in s.procs && SendRight(s.procs[p].activity) == Some(id) && !ToldNothing(t.procs[p].activity, id))
    ensures Undisturbed(t, id)
  {
    forall q | q in t.procs
      ensures UndisturbedBy(t, t.procs[q].activity, id)
    {
      assert q in s.procs ==> UndisturbedBy(s, s.procs[q].activity, id);
    }
  }

  /** Whoever commits to the trade commits while nobody may still send it. */
  lemma CommitStaysUndisturbed(config: Config, s: State, t: State, p: Pid, edited: Trade, id: TradeId)
    requires Inv(config, s) && HonestProcs(s, id) && Undisturbed(s, id) && !HazardOn(s, id)
    requires p in s.procs && (s.procs[p].activity.Answered? || s.procs[p].activity.Resolving?)
    requires Committed(s, t, p, edited)
    ensures Undisturbed(t, id)
  {
    var a := s.procs[p].activity;
    WriteStatus(s.rows, a.trade, edited);
    forall q | q in t.procs
      ensures UndisturbedBy(t, t.procs[q].activity, id)
    {
      if q != p {
        assert UndisturbedBy(s, s.procs[q].activity, id);
        if Knows(a, id) {
          KnowerIsAlone(config, s, p, q, id);
        } else if a.trade.id == id {
          assert ToldNothing(a, id);
        }
      }
    }
  }

  lemma SendStaysUndisturbed(config: Config, s: State, t: State, p: Pid, dryRun: bool, landing: Option<OrderStatus>,
                             id: TradeId)
    requires Inv(config, s) && Undisturbed(s, id) && !HazardOn(s, id) && p in s.procs && s.procs[p].activity.Sending?
    requires Sent(s, t, p, dryRun, landing) && (p in t.procs ==> t.procs[p].activity.Answered?)
    ensures Undisturbed(t, id)
  {
    var trade := s.procs[p].activity.trade;
    assert ActivityOk(s.rows, s.procs[p].activity);
    forall q | q in t.procs
      ensures UndisturbedBy(t, t.procs[q].activity, id)
    {
      if q != p {
        assert UndisturbedBy(s, s.procs[q].activity, id) && ActivityOk(s.rows, s.procs[q].activity);
        assert ToldNothing(s.procs[q].activity, id) ==> SendRight(s.procs[p].activity) != Some(id);
      }
    }
  }

  lemma QueryStaysUndisturbed(s: State, p: Pid, reply: Wire, id: TradeId)
    requires Undisturbed(s, id) && p in s.procs && s.procs[p].activity.Asking?
    requires HonestLookup(CurrentStatus(s.orders, s.procs[p].activity.trade.clientOrderId), reply)
    ensures Undisturbed(QueryStep(s, p, reply), id)
  {
    LookupTaxonomy(CurrentStatus(s.orders, s.procs[p].activity.trade.clientOrderId), reply);
    PlainStepStaysUndisturbed(s, QueryStep(s, p, reply), p, id);
  }

  lemma OthersStayUndisturbed(config: Config, s: State, step: Step, id: TradeId)
    requires Inv(config, s) && Undisturbed(s, id) && Enabled(config, s, step) && Truthful(s, step)
    requires !step.Send? && !step.Settle? && !step.Resolve?
    ensures Undisturbed(Next(config, s, step), id)
  {
    if step.ExchangeMove? {
      forall p | p in s.procs
        ensures UndisturbedBy(Next(config, s, step), s.procs[p].activity, id)
      {
        assert UndisturbedBy(s, s.procs[p].activity, id);
      }
    } else if step.Query? {
      QueryStaysUndisturbed(s, step.p, step.reply, id);
    } else if !step.Crash? {
      QuietStep(config, s, step, id);
      PlainStepStaysUndisturbed(s, Next(config, s, step), step.p, id);
    }
  }

  lemma StepStaysUndisturbed(config: Config, s: State, step: Step, id: TradeId)
    requires Inv(config, s) && HonestOn(s, id) && Undisturbed(s, id) && !HazardOn(s, id)
    requires Enabled(config, s, step) && Truthful(s, step)
    ensures Undisturbed(Next(config, s, step), id)
  {
    if step.Send? {
      SendStepSends(s, step.p, step.dryRun, step.landing, step.reply);
      SendStaysUndisturbed(config, s, Next(config, s, step), step.p, step.dryRun, step.landing, id);
    } else if step.Settle? {
      SettleCommits(s, step.p);
      CommitStaysUndisturbed(config, s, Next(config, s, step), step.p,
                             Settled(s.procs[step.p].activity.trade, s.procs[step.p].activity.placement), id);
    } else if step.Resolve? {
      ResolveCommits(s, step.p);
      CommitStaysUndisturbed(config, s, Next(config, s, step), step.p,
                             Resolved(s.procs[step.p].activity.trade, s.procs[step.p].activity.found), id);
    } else {
      OthersStayUndisturbed(config, s, step, id);
    }
  }

  lemma UndisturbedIsNotFalsified(config: Config, s: State, step: Step, id: TradeId)
    requires Inv(config, s) && Undisturbed(s, id) && Enabled(config, s, step)
    ensures !Falsifies(config, s, step, id)
  {
    if step.Resolve? || step.Send? {
      assert UndisturbedBy(s, s.procs[step.p].activity, id);
    }
  }

  /** Hazard-freedom is a discipline that suffices: it keeps the two falsifying steps from ever occurring. */
  lemma {:induction false} HazardFreeIsNeverFalsified(config: Config, steps: seq<Step>, id: TradeId)
    requires Run(config, Start, steps) && TruthfulRun(config, Start, steps) && HazardFreeRun(config, Start, steps, id)
    ensures NeverFalsified(config, Start, steps, id) && Undisturbed(After(config, Start, steps), id)
    decreases |steps|
  {
    if steps != [] {
      var earlier := steps[..|steps| - 1];
      HazardFreeIsNeverFalsified(config, earlier, id);
      RunKeepsInv(config, Start, earlier);
      RunIsHonestExactly(config, Start, earlier, id);
      UndisturbedIsNotFalsified(config, After(config, Start, earlier), steps[|steps| - 1], id);
      StepStaysUndisturbed(config, After(config, Start, earlier), steps[|steps| - 1], id);
    }
  }

  /** So without hazard on this trade, whatever happens to the others, its recorded terminal status is true
      of the exchange. */
  lemma TerminalStatusIsHonest(config: Config, steps: seq<Step>, id: TradeId)
    requires Run(config, Start, steps) && TruthfulRun(config, Start, steps) && HazardFreeRun(config, Start, steps, id)
    ensures WarrantedOn(After(config, Start, steps), id)
  {
    HazardFreeIsNeverFalsified(config, steps, id);
    HonestyExactly(config, steps, id);
  }

  /** And when no trade meets the hazard, every status is true. */
  lemma AllStatusesAreHonest(config: Config, steps: seq<Step>)
    requires Run(config, Start, steps) && TruthfulRun(config, Start, steps)
    requires forall id :: id in After(config, Start, steps).rows ==> HazardFreeRun(config, Start, steps, id)
    ensures AllWarranted(After(config, Start, steps))
  {
    forall id | id in After(config, Start, steps).rows
      ensures WarrantedOn(After(config, Start, steps), id)
    {
      TerminalStatusIsHonest(config, steps, id);
    }
  }

  // ---------------------------------------------------------------- with hazard

  /** The order lands after all, and the not-found answer is committed over it. */
  lemma LandThenResolveLies(config: Config, s: State, p: Pid, q: Pid, id: TradeId)
    requires Inv(config, s) && p in s.procs && q in s.procs && ToldNothing(s.procs[p].activity, id)
    requires s.procs[q].activity.Sending? && s.procs[q].activity.trade.id == id
    ensures var s' := SendStep(s, q, false, Some(NEW), TimedOut);
      && p in s'.procs && s'.procs[p] == s.procs[p] && id in s'.rows
      && !WarrantedOn(ResolveStep(s', p), id)
  {
    assert ActivityOk(s.rows, s.procs[p].activity) && ActivityOk(s.rows, s.procs[q].activity);
    assert s.procs[q].activity.trade.clientOrderId == s.procs[p].activity.trade.clientOrderId;
    NotFoundOverLiveLies(SendStep(s, q, false, Some(NEW), TimedOut), p, id);
  }

  lemma NotFoundOverLiveLies(s: State, p: Pid, id: TradeId)
    requires p in s.procs && ToldNothing(s.procs[p].activity, id) && !IsTerminal(s.procs[p].activity.trade.status)
    requires id in s.rows && s.rows[id].clientOrderId in s.orders && s.orders[s.rows[id].clientOrderId].status == NEW
    ensures !WarrantedOn(ResolveStep(s, p), id)
  {
    assert ResolveStep(s, p).rows[id].status.Failed?;
  }

  lemma SendingHazardCanLie(config: Config, s: State, p: Pid, q: Pid, id: TradeId, steps: seq<Step>)
    returns (more: seq<Step>)
    requires Run(config, s, steps) && TruthfulRun(config, s, steps)
    requires var t := After(config, s, steps);
      && Inv(config, t) && p in t.procs && q in t.procs && ToldNothing(t.procs[p].activity, id)
      && t.procs[q].activity.Sending? && t.procs[q].activity.trade.id == id
    ensures Run(config, s, more) && TruthfulRun(config, s, more) && |more| == |steps| + 2
    ensures !WarrantedOn(After(config, s, more), id)
  {
    LandThenResolveLies(config, After(config, s, steps), p, q, id);
    more := TwoMoreSteps(config, s, steps, Send(q, false, Some(NEW), TimedOut), Resolve(p));
  }

  /** The hazard is fatal: from any reachable state in it, three truthful steps at most record FAILED
      over a live order. */
  lemma EveryHazardCanLie(config: Config, s: State, id: TradeId) returns (more: seq<Step>)
    requires Inv(config, s) && HazardOn(s, id)
    ensures Run(config, s, more) && TruthfulRun(config, s, more) && |more| <= 3
    ensures !WarrantedOn(After(config, s, more), id)
  {
    var p, q :| p in s.procs && q in s.procs && ToldNothing(s.procs[p].activity, id)
      && SendRight(s.procs[q].activity) == Some(id);
    if s.procs[q].activity.Claimed? {
      ReloadKeepsInv(config, s, q);
      OneMoreStep(config, s, [], Reload(q));
      more := SendingHazardCanLie(config, s, p, q, id, [Reload(q)]);
    } else {
      more := SendingHazardCanLie(config, s, p, q, id, []);
    }
  }

  /** A trade that has just been created can be caught by the hazard: a reconciliation of it asks, is told
      there is no order, and before it commits the trade is claimed. */
  lemma NewTradeCanMeetHazard(config: Config, s: State, p: Pid, q: Pid, id: TradeId) returns (more: seq<Step>)
    requires Inv(config, s) && p in s.procs && s.procs[p].activity == Created(id) && q !in s.procs
    requires id in s.rows && Claimable(s.rows[id]) && s.rows[id].clientOrderId !in s.orders
    ensures Run(config, s, more) && TruthfulRun(config, s, more) && HazardOn(After(config, s, more), id)
  {
    AskedBeforeSending(config, s, q, id);
    more := TwoMoreSteps(config, s, [], StartReconcile(q, id), Query(q, NOT_FOUND));
    ClaimedAfterAnswer(config, After(config, s, more), p, q, id);
    more := TwoMoreSteps(config, s, more, GoInline(p), ClaimRow(p));
  }

  lemma ClaimedAfterAnswer(config: Config, s: State, p: Pid, q: Pid, id: TradeId)
    requires p in s.procs && q in s.procs && p != q && id in s.rows && s.rows[id].id == id && Claimable(s.rows[id])
    requires s.procs[p].activity == Created(id) && s.procs[q].activity == Resolving(s.rows[id], None)
    ensures var s1 := Next(config, s, GoInline(p));
      Enabled(config, s1, ClaimRow(p)) && HazardOn(Next(config, s1, ClaimRow(p)), id)
  {
    var s2 := ClaimStep(InlineStep(s, p), p);
    assert s2.procs[p].activity == Claimed(id) && ToldNothing(s2.procs[q].activity, id);
  }

  /** Without the hypothesis the promise is false of the code: every accepted signal has a truthful run
      that ends with FAILED recorded over a live order. */
  lemma HonestyFailsUnderHazard(config: Config, payload: Payload) returns (steps: seq<Step>)
    requires Accepted(config, payload) && StoreNumeric(payload.quantity).Some?
    ensures Run(config, Start, steps) && TruthfulRun(config, Start, steps)
    ensures !WarrantedOn(After(config, Start, steps), 1)
  {
    var created := SignalCreatesTrade(config, payload);
    RunKeepsInv(config, Start, created);
    var s := After(config, Start, created);
    var hazard := NewTradeCanMeetHazard(config, s, 0, 1, 1);
    RunKeepsInv(config, s, hazard);
    var lie := EveryHazardCanLie(config, After(config, s, hazard), 1);
    RunsCompose(config, s, hazard, lie);
    RunsCompose(config, Start, created, hazard + lie);
    steps := created + (hazard + lie);
  }
}
