/** The lifecycle of a trade moves forward, step by step, exactly as long as no commit overtakes another;
    two coroutines that never work on the trade at once never do that. */
module Lifecycle {
  import opened Wrappers
  import opened Decimals
  import opened Models
  import opened Webhook
  import opened BinanceClient
  import opened Trading
  import opened Protocol
  import opened Safety
  import opened Truth
  import opened Honesty
  import opened Hazard

  /** The trade a coroutine is working on, from its claim or load to its last commit. */
  function Works(a: Activity): Option<TradeId> {
    match a
    case Claimed(id) => Some(id)
    case Sending(t) => Some(t.id)
    case Answered(t, _) => Some(t.id)
    case Asking(t) => Some(t.id)
    case Resolving(t, _) => Some(t.id)
    case _ => None
  }

  /** How far along its lifecycle a trade is. */
  function Progress(t: Trade): nat {
    match t.status
    case Pending => if t.submitted then 1 else 0
    case Unknown => 2
    case New => 3
    case PartiallyFilled => 3
    case _ => 4
  }

  /** At least as far along, and untouched once terminal. */
  predicate Forward(before: Trade, after: Trade) {
    Progress(before) <= Progress(after) && (IsTerminal(before.status) ==> after == before)
  }

  predicate MovedForwardOn(s: State, t: State, id: TradeId) {
    id in s.rows ==> id in t.rows && Forward(s.rows[id], t.rows[id])
  }

  predicate MovedForward(s: State, t: State) { forall id :: id in s.rows ==> MovedForwardOn(s, t, id) }

  // ---------------------------------------------------------------- exactly when a step moves forward

  /** The commit would change the column: it was edited, and not to what is stored. */
  predicate ColumnChanges<T(==)>(stored: T, copy: T, edited: T) { edited != copy && edited != stored }

  predicate CommitChanges(row: Trade, copy: Trade, edited: Trade) {
    || ColumnChanges(row.status, copy.status, edited.status)
    || ColumnChanges(row.binanceOrderId, copy.binanceOrderId, edited.binanceOrderId)
    || ColumnChanges(row.binanceStatus, copy.binanceStatus, edited.binanceStatus)
    || ColumnChanges(row.executedQuantity, copy.executedQuantity, edited.executedQuantity)
    || ColumnChanges(row.cumulativeQuoteQuantity, copy.cumulativeQuoteQuantity, edited.cumulativeQuoteQuantity)
    || ColumnChanges(row.errorCode, copy.errorCode, edited.errorCode)
    || ColumnChanges(row.reconciled, copy.reconciled, edited.reconciled)
  }

  /** Somebody else's commit got there first: the row is terminal by now and would change, or it is already
      further along than the status about to be written. The guard the commit lacks. */
  predicate Overtaken(row: Trade, copy: Trade, edited: Trade) {
    || (IsTerminal(row.status) && CommitChanges(row, copy, edited))
    || (edited.status != copy.status && Progress(row) > Progress(row.(status := edited.status)))
  }

  /** What `a` is about to commit. */
  function Edited(a: Activity): Trade
    requires a.Answered? || a.Resolving?
  {
    if a.Answered? then Settled(a.trade, a.placement) else Resolved(a.trade, a.found)
  }

  /** The step commits trade `id` over a row that has overtaken it. */
  predicate OvertakenStep(config: Config, s: State, step: Step, id: TradeId)
    requires Enabled(config, s, step)
  {
    (step.Settle? || step.Resolve?) &&
    var a := s.procs[step.p].activity;
    a.trade.id == id && Overtaken(s.rows[id], a.trade, Edited(a))
  }

  lemma EditKeepsIdentity(a: Activity)
    requires a.Answered? || a.Resolving?
    ensures SameOrder(a.trade, Edited(a)) && Edited(a).submitted == a.trade.submitted
  {}

  lemma FlushMovesForward(row: Trade, copy: Trade, edited: Trade)
    requires edited.submitted == copy.submitted
    ensures Forward(row, Flush(row, copy, edited)) <==> !Overtaken(row, copy, edited)
  {}

  lemma CommitMovesForward(config: Config, s: State, step: Step, id: TradeId)
    requires RowsFiled(config, s.rows) && Enabled(config, s, step) && (step.Settle? || step.Resolve?) && id in s.rows
    ensures MovedForwardOn(s, Next(config, s, step), id) <==> !OvertakenStep(config, s, step, id)
  {
    var a := s.procs[step.p].activity;
    EditKeepsIdentity(a);
    if a.trade.id == id {
      FlushMovesForward(s.rows[id], a.trade, Edited(a));
    }
  }

  lemma OthersMoveForward(config: Config, s: State, step: Step, id: TradeId)
    requires RowsFiled(config, s.rows) && RowsUnique(s.rows) && Enabled(config, s, step)
    requires !step.Settle? && !step.Resolve? && id in s.rows
    ensures MovedForwardOn(s, Next(config, s, step), id)
  {
    if HoldsNoTrade(step) {
      NoTradeFrame(config, s, step);
    }
  }

  /** Exactly when a step moves a trade forward: in every state of every run, every step does, except the
      commit of a copy that has been overtaken, and that one never does. */
  lemma ForwardUnlessOvertaken(config: Config, s: State, step: Step, id: TradeId)
    requires Inv(config, s) && Enabled(config, s, step) && id in s.rows
    ensures MovedForwardOn(s, Next(config, s, step), id) <==> !OvertakenStep(config, s, step, id)
  {
    if step.Settle? || step.Resolve? {
      CommitMovesForward(config, s, step, id);
    } else {
      OthersMoveForward(config, s, step, id);
    }
  }

  predicate NeverOvertaken(config: Config, s: State, steps: seq<Step>, id: TradeId)
    requires Run(config, s, steps)
    decreases |steps|
  {
    steps == [] ||
    (NeverOvertaken(config, s, steps[..|steps| - 1], id) &&
     (id in After(config, s, steps[..|steps| - 1]).rows ==>
        !OvertakenStep(config, After(config, s, steps[..|steps| - 1]), steps[|steps| - 1], id)))
  }

  /** Every single step of the run moves the trade forward. */
  predicate StepwiseForward(config: Config, s: State, steps: seq<Step>, id: TradeId)
    requires Run(config, s, steps)
    decreases |steps|
  {
    steps == [] ||
    (StepwiseForward(config, s, steps[..|steps| - 1], id) &&
     MovedForwardOn(After(config, s, steps[..|steps| - 1]), After(config, s, steps), id))
  }

  /** Over whole runs: a trade moves forward at every step if and only if none of its commits is overtaken;
      and then it has moved forward from the first state to the last. No assumption on the exchange. */
  lemma {:induction false} LifecycleExactly(config: Config, s: State, steps: seq<Step>, id: TradeId)
    requires Inv(config, s) && Run(config, s, steps)
    ensures StepwiseForward(config, s, steps, id) <==> NeverOvertaken(config, s, steps, id)
    ensures NeverOvertaken(config, s, steps, id) ==> MovedForwardOn(s, After(config, s, steps), id)
    decreases |steps|
  {
    if steps != [] {
      var earlier := steps[..|steps| - 1];
      LifecycleExactly(config, s, earlier, id);
      RunKeepsInv(config, s, earlier);
      RunGrowsRows(config, s, earlier);
      if id in After(config, s, earlier).rows {
        ForwardUnlessOvertaken(config, After(config, s, earlier), steps[|steps| - 1], id);
      }
    }
  }

  // ---------------------------------------------------------------- no overlap, no overtaking

  /** At most one coroutine works on the trade: no reconciliation overlaps its claim-to-commit window, nor
      another reconciliation of it. */
  predicate QuietOn(procs: map<Pid, Proc>, id: TradeId) {
    forall p, q :: p in procs && q in procs && p != q ==>
      !(Works(procs[p].activity) == Some(id) && Works(procs[q].activity) == Some(id))
  }

  predicate QuietRun(config: Config, s: State, steps: seq<Step>, id: TradeId)
    requires Run(config, s, steps)
    decreases |steps|
  {
    QuietOn(After(config, s, steps).procs, id) && (steps == [] || QuietRun(config, s, steps[..|steps| - 1], id))
  }

  /** A coroutine working on the trade holds its row as it stands. */
  predicate Current(rows: Table, a: Activity) {
    match a
    case Claimed(id) => id in rows && rows[id].status.Pending? && rows[id].submitted
    case Sending(t) => t.id in rows && rows[t.id] == t && t.status.Pending? && t.submitted
    case Answered(t, _) => t.id in rows && rows[t.id] == t && t.status.Pending? && t.submitted
    case Asking(t) => t.id in rows && rows[t.id] == t
    case Resolving(t, _) => t.id in rows && rows[t.id] == t
    case _ => true
  }

  predicate CurrentOn(s: State, id: TradeId) {
    forall p :: p in s.procs && Works(s.procs[p].activity) == Some(id) ==> Current(s.rows, s.procs[p].activity)
  }

  /** Trades other than the one `p` works on, and the row itself unless `p` changed it, stay current. */
  lemma StaysCurrent(s: State, t: State, p: Pid, id: TradeId)
    requires CurrentOn(s, id) && OthersStay(s.procs, t.procs, p)
    requires id in s.rows ==> id in t.rows
    requires (id in s.rows && t.rows[id] == s.rows[id]) ||
             forall q :: q in t.procs && q != p ==> Works(t.procs[q].activity) != Some(id)
    requires p in t.procs && Works(t.procs[p].activity) == Some(id) ==> Current(t.rows, t.procs[p].activity)
    ensures CurrentOn(t, id)
  {
    forall q | q in t.procs && Works(t.procs[q].activity) == Some(id)
      ensures Current(t.rows, t.procs[q].activity)
    {
      assert q != p ==> Current(s.rows, s.procs[q].activity);
    }
  }

  /** Whoever works on a trade works on a row. */
  lemma WorksOnRow(config: Config, s: State, p: Pid)
    requires Inv(config, s) && p in s.procs && Works(s.procs[p].activity).Some?
    ensures Works(s.procs[p].activity).value in s.rows
  {
    assert ActivityOk(s.rows, s.procs[p].activity);
  }

  /** A current copy is not overtaken. */
  lemma CurrentIsNotOvertaken(config: Config, s: State, step: Step, id: TradeId)
    requires Inv(config, s) && CurrentOn(s, id) && Enabled(config, s, step) && id in s.rows
    ensures !OvertakenStep(config, s, step, id)
  {
    if step.Settle? || step.Resolve? {
      var a := s.procs[step.p].activity;
      assert ActivityOk(s.rows, a);
      if a.trade.id == id {
        assert Current(s.rows, a);
        EditAdvances(a);
      }
    }
  }

  lemma EditAdvances(a: Activity)
    requires a.Answered? ==> a.trade.status.Pending? && a.trade.submitted
    requires a.Resolving? ==> !IsTerminal(a.trade.status)
    requires a.Answered? || a.Resolving?
    ensures !Overtaken(a.trade, a.trade, Edited(a))
  {}

  // ---------------------------------------------------------------- copies stay current

  lemma ClaimStaysCurrent(config: Config, s: State, p: Pid, id: TradeId)
    requires Inv(config, s) && CurrentOn(s, id) && p in s.procs && s.procs[p].activity.Claiming?
    requires QuietOn(ClaimStep(s, p).procs, id)
    ensures CurrentOn(ClaimStep(s, p), id)
  {
    NobodyOnNoRow(config, s, id);
    if id in s.rows {
      ClaimChangesOwnRow(s, p, id);
    }
    StaysCurrent(s, ClaimStep(s, p), p, id);
  }

  lemma ClaimChangesOwnRow(s: State, p: Pid, id: TradeId)
    requires p in s.procs && s.procs[p].activity.Claiming? && id in s.rows && QuietOn(ClaimStep(s, p).procs, id)
    ensures var t := ClaimStep(s, p);
      && id in t.rows
      && (t.rows[id] == s.rows[id] || forall q :: q in t.procs && q != p ==> Works(t.procs[q].activity) != Some(id))
      && (p in t.procs ==> Current(t.rows, t.procs[p].activity))
  {
    var t := ClaimStep(s, p);
    assert t.rows[id] != s.rows[id] ==> Works(t.procs[p].activity) == Some(id);
  }

  /** Nobody works on a trade that has no row. */
  lemma NobodyOnNoRow(config: Config, s: State, id: TradeId)
    requires Inv(config, s)
    ensures id !in s.rows ==> forall p :: p in s.procs ==> Works(s.procs[p].activity) != Some(id)
  {
    forall p | p in s.procs && Works(s.procs[p].activity).Some?
      ensures Works(s.procs[p].activity).value in s.rows
    {
      WorksOnRow(config, s, p);
    }
  }

  lemma InsertStaysCurrent(config: Config, s: State, p: Pid, inserted: TradeId, createdAt: int, id: TradeId)
    requires Inv(config, s) && CurrentOn(s, id) && p in s.procs && s.procs[p].activity.Received? && inserted !in s.rows
    requires Storable(s.procs[p].activity.payload)
    ensures CurrentOn(InsertStep(config, s, p, inserted, createdAt), id)
  {
    NobodyOnNoRow(config, s, id);
    StaysCurrent(s, InsertStep(config, s, p, inserted, createdAt), p, id);
  }

  lemma ReloadStaysCurrent(config: Config, s: State, p: Pid, id: TradeId)
    requires Inv(config, s) && CurrentOn(s, id) && p in s.procs && s.procs[p].activity.Claimed?
    requires s.procs[p].activity.tradeId in s.rows
    ensures CurrentOn(ReloadStep(s, p), id)
  {
    NobodyOnNoRow(config, s, id);
    assert Works(s.procs[p].activity) == Some(id) ==> Current(s.rows, s.procs[p].activity);
    StaysCurrent(s, ReloadStep(s, p), p, id);
  }

  /** `p` goes on with the copy it had. */
  lemma SameCopyStaysCurrent(config: Config, s: State, t: State, p: Pid, id: TradeId)
    requires Inv(config, s) && CurrentOn(s, id) && t.rows == s.rows && OthersStay(s.procs, t.procs, p) && p in s.procs
    requires s.procs[p].activity.Sending? || s.procs[p].activity.Asking?
    requires p in t.procs ==>
      && (if s.procs[p].activity.Sending? then t.procs[p].activity.Answered? else t.procs[p].activity.Resolving?)
      && t.procs[p].activity.trade == s.procs[p].activity.trade
    ensures CurrentOn(t, id)
  {
    NobodyOnNoRow(config, s, id);
    assert Works(s.procs[p].activity) == Some(id) ==> Current(s.rows, s.procs[p].activity);
    StaysCurrent(s, t, p, id);
  }

  lemma SendStaysCurrent(config: Config, s: State, p: Pid, dryRun: bool, landing: Option<OrderStatus>, reply: Wire,
                         id: TradeId)
    requires Inv(config, s) && CurrentOn(s, id) && p in s.procs && s.procs[p].activity.Sending?
    ensures CurrentOn(SendStep(s, p, dryRun, landing, reply), id)
  {
    var t := SendStep(s, p, dryRun, landing, reply);
    assert p in t.procs ==> t.procs[p].activity.Answered? && t.procs[p].activity.trade == s.procs[p].activity.trade;
    SameCopyStaysCurrent(config, s, t, p, id);
  }

  lemma QueryKeepsCopy(s: State, p: Pid, reply: Wire)
    requires p in s.procs && s.procs[p].activity.Asking?
    ensures var t := QueryStep(s, p, reply);
      && t.rows == s.rows && OthersStay(s.procs, t.procs, p)
      && (p in t.procs ==> t.procs[p].activity.Resolving? && t.procs[p].activity.trade == s.procs[p].activity.trade)
  {}

  lemma QueryStaysCurrent(config: Config, s: State, p: Pid, reply: Wire, id: TradeId)
    requires Inv(config, s) && CurrentOn(s, id) && p in s.procs && s.procs[p].activity.Asking?
    ensures CurrentOn(QueryStep(s, p, reply), id)
  {
    QueryKeepsCopy(s, p, reply);
    SameCopyStaysCurrent(config, s, QueryStep(s, p, reply), p, id);
  }

  lemma SettleStaysCurrent(config: Config, s: State, p: Pid, id: TradeId)
    requires Inv(config, s) && CurrentOn(s, id) && QuietOn(s.procs, id) && p in s.procs && s.procs[p].activity.Answered?
    requires s.procs[p].activity.trade.id in s.rows
    ensures CurrentOn(SettleStep(s, p), id)
  {
    var a := s.procs[p].activity;
    SettleCommits(s, p);
    EditKeepsIdentity(a);
    if a.trade.id == id {
      assert Works(a) == Some(id) && Current(s.rows, a);
      OwnSettleStaysCurrent(s, SettleStep(s, p), p, id);
    } else {
      OtherCommitStaysCurrent(s, SettleStep(s, p), p, a.trade, Edited(a), id);
    }
  }

  lemma OtherCommitStaysCurrent(s: State, t: State, p: Pid, copy: Trade, edited: Trade, id: TradeId)
    requires CurrentOn(s, id) && copy.id != id && edited.id == copy.id && copy.id in s.rows
    requires t.rows == Write(s.rows, copy, edited)
    requires OthersStay(s.procs, t.procs, p) && (p in t.procs ==> t.procs[p].activity == Asking(edited))
    ensures CurrentOn(t, id)
  {
    forall q | q in t.procs && Works(t.procs[q].activity) == Some(id)
      ensures Current(t.rows, t.procs[q].activity)
    {
      assert q != p && Current(s.rows, s.procs[q].activity);
    }
  }

  lemma OwnSettleStaysCurrent(s: State, t: State, p: Pid, id: TradeId)
    requires QuietOn(s.procs, id) && p in s.procs && s.procs[p].activity.Answered?
    requires Works(s.procs[p].activity) == Some(id)
    requires Current(s.rows, s.procs[p].activity)
    requires var a := s.procs[p].activity; t.rows == Write(s.rows, a.trade, Edited(a))
    requires OthersStay(s.procs, t.procs, p)
    requires p in t.procs ==> t.procs[p].activity == Asking(Edited(s.procs[p].activity))
    ensures CurrentOn(t, id)
  {
    var a := s.procs[p].activity;
    EditKeepsIdentity(a);
    WriteOverCurrent(s.rows, a.trade, Edited(a));
  }

  lemma ResolveStaysCurrent(config: Config, s: State, p: Pid, id: TradeId)
    requires Inv(config, s) && CurrentOn(s, id) && QuietOn(s.procs, id) && p in s.procs
    requires s.procs[p].activity.Resolving?
    requires s.procs[p].activity.trade.id in s.rows
    ensures CurrentOn(ResolveStep(s, p), id)
  {
    NobodyOnNoRow(config, s, id);
    assert Works(s.procs[p].activity) == Some(s.procs[p].activity.trade.id);
    StaysCurrent(s, ResolveStep(s, p), p, id);
  }

  lemma StartStaysCurrent(config: Config, s: State, p: Pid, other: TradeId, id: TradeId)
    requires Inv(config, s) && CurrentOn(s, id) && p !in s.procs && other in s.rows
    ensures CurrentOn(Next(config, s, StartReconcile(p, other)), id)
  {
    NobodyOnNoRow(config, s, id);
    StaysCurrent(s, Next(config, s, StartReconcile(p, other)), p, id);
  }

  lemma NoTradeStaysCurrent(config: Config, s: State, step: Step, id: TradeId)
    requires Inv(config, s) && CurrentOn(s, id) && Enabled(config, s, step) && HoldsNoTrade(step)
    ensures CurrentOn(Next(config, s, step), id)
  {
    NobodyOnNoRow(config, s, id);
    NoTradeFrame(config, s, step);
    StaysCurrent(s, Next(config, s, step), step.p, id);
  }

  lemma StepStaysCurrent(config: Config, s: State, step: Step, id: TradeId)
    requires Inv(config, s) && CurrentOn(s, id) && Enabled(config, s, step)
    requires QuietOn(s.procs, id) && QuietOn(Next(config, s, step).procs, id)
    ensures CurrentOn(Next(config, s, step), id)
  {
    if step.Insert? {
      InsertStaysCurrent(config, s, step.p, step.id, step.createdAt, id);
    } else if step.ClaimRow? {
      ClaimStaysCurrent(config, s, step.p, id);
    } else if step.Reload? {
      ReloadStaysCurrent(config, s, step.p, id);
    } else if step.Send? {
      SendStaysCurrent(config, s, step.p, step.dryRun, step.landing, step.reply, id);
    } else if step.Settle? {
      SettleStaysCurrent(config, s, step.p, id);
    } else if step.StartReconcile? {
      StartStaysCurrent(config, s, step.p, step.id, id);
    } else if step.Query? {
      QueryStaysCurrent(config, s, step.p, step.reply, id);
    } else if step.Resolve? {
      ResolveStaysCurrent(config, s, step.p, id);
    } else if HoldsNoTrade(step) {
      NoTradeStaysCurrent(config, s, step, id);
    }
  }

  /** Without overlap on the trade, none of its commits is ever overtaken. */
  lemma {:induction false} QuietRunIsNeverOvertaken(config: Config, s: State, steps: seq<Step>, id: TradeId)
    requires Inv(config, s) && CurrentOn(s, id) && Run(config, s, steps) && QuietRun(config, s, steps, id)
    ensures NeverOvertaken(config, s, steps, id) && CurrentOn(After(config, s, steps), id)
    decreases |steps|
  {
    if steps != [] {
      var earlier := steps[..|steps| - 1];
      QuietRunIsNeverOvertaken(config, s, earlier, id);
      RunKeepsInv(config, s, earlier);
      StepStaysCurrent(config, After(config, s, earlier), steps[|steps| - 1], id);
      if id in After(config, s, earlier).rows {
        CurrentIsNotOvertaken(config, After(config, s, earlier), steps[|steps| - 1], id);
      }
    }
  }

  // ---------------------------------------------------------------- the promises

  /** Between any two moments of a run, a trade on which no two coroutines worked at once moved forward
      through unsubmitted < submitted < UNKNOWN < NEW / PARTIALLY_FILLED < terminal, and if it was terminal at
      the first it is, column for column, the same at the second, whatever happened to other trades. No
      assumption on the exchange. */
  lemma LifecycleOnlyMovesForward(config: Config, before: seq<Step>, more: seq<Step>, id: TradeId)
    requires Run(config, Start, before) && QuietRun(config, Start, before, id)
    requires Run(config, After(config, Start, before), more) && QuietRun(config, After(config, Start, before), more, id)
    ensures var s := After(config, Start, before); MovedForwardOn(s, After(config, s, more), id)
  {
    RunKeepsInv(config, Start, before);
    QuietRunIsNeverOvertaken(config, Start, before, id);
    QuietRunIsNeverOvertaken(config, After(config, Start, before), more, id);
    LifecycleExactly(config, After(config, Start, before), more, id);
  }

  /** So when no two coroutines ever work on the same trade, all trades only move forward. */
  lemma AllLifecyclesMoveForward(config: Config, before: seq<Step>, more: seq<Step>)
    requires Run(config, Start, before)
    requires forall id :: id in After(config, Start, before).rows ==> QuietRun(config, Start, before, id)
    requires Run(config, After(config, Start, before), more)
    requires var s := After(config, Start, before); forall id :: id in s.rows ==> QuietRun(config, s, more, id)
    ensures var s := After(config, Start, before); MovedForward(s, After(config, s, more))
  {
    var s := After(config, Start, before);
    forall id | id in s.rows
      ensures MovedForwardOn(s, After(config, s, more), id)
    {
      LifecycleOnlyMovesForward(config, before, more, id);
    }
  }

  lemma StaleAnswerReopens(config: Config, s: State, p: Pid)
    requires p in s.procs && s.procs[p].activity.Resolving? && s.procs[p].activity.found.Some?
    requires s.procs[p].activity.found.value.status == NEW && s.procs[p].activity.trade.status.Unknown?
    requires s.procs[p].activity.trade.id in s.rows && IsTerminal(s.rows[s.procs[p].activity.trade.id].status)
    ensures Enabled(config, s, Resolve(p))
    ensures !MovedForwardOn(s, Next(config, s, Resolve(p)), s.procs[p].activity.trade.id)
  {
    var id := s.procs[p].activity.trade.id;
    assert ResolveStep(s, p).rows[id].status.New?;
  }

  /** `p` holds the answer NEW, true so far, for a trade still UNKNOWN. */
  predicate InDoubt(s: State, p: Pid, id: TradeId) {
    && p in s.procs && s.procs[p].activity.Resolving?
    && s.procs[p].activity.found.Some? && s.procs[p].activity.found.value.status == NEW
    && var copy := s.procs[p].activity.trade;
       && copy.id == id && copy.status.Unknown? && copy.id in s.rows && s.rows[copy.id] == copy
       && copy.clientOrderId in s.orders && s.orders[copy.clientOrderId].status == NEW
  }

  /** Overlapping reconciliations can reopen a settled trade: while one of them holds the answer NEW for a
      trade still UNKNOWN, the order fills, another reconciliation records FILLED, and the first then writes
      NEW over it. All five steps are truthful. */
  lemma OverlapReopensSettledTrade(config: Config, s: State, p: Pid, q: Pid, id: TradeId)
    returns (settle: seq<Step>, reopen: Step)
    requires Inv(config, s) && InDoubt(s, p, id) && q !in s.procs
    ensures Run(config, s, settle) && TruthfulRun(config, s, settle)
    ensures var t := After(config, s, settle);
      Enabled(config, t, reopen) && !MovedForwardOn(t, Next(config, t, reopen), id)
  {
    var copy := s.procs[p].activity.trade;
    settle := FillMeetsReconcile(config, s, q, copy);
    FillIsRecorded(config, After(config, s, settle), q, copy);
    var t := Next(config, Next(config, After(config, s, settle), Query(q, FILL)), Resolve(q));
    assert t.procs[p] == s.procs[p];
    StaleAnswerReopens(config, t, p);
    settle := TwoMoreSteps(config, s, settle, Query(q, FILL), Resolve(q));
    reopen := Resolve(p);
  }

  const FILL := Response(200, Object(Missing, FILLED, Finite(false, 0, 0), Finite(false, 0, 0), NoCode))

  lemma FillThenReconcile(config: Config, s: State, q: Pid, copy: Trade)
    requires q !in s.procs && copy.id in s.rows && s.rows[copy.id] == copy && copy.status.Unknown?
    requires copy.clientOrderId in s.orders && s.orders[copy.clientOrderId].status == NEW
    ensures var move := ExchangeMove(copy.clientOrderId, FILLED);
      && Enabled(config, s, move) && Truthful(s, move)
      && var s1 := Next(config, s, move);
         && Enabled(config, s1, StartReconcile(q, copy.id)) && Truthful(s1, StartReconcile(q, copy.id))
         && var t := Next(config, s1, StartReconcile(q, copy.id));
            && t.rows == s.rows && t.procs == s.procs[q := Proc(Asking(copy), None)]
            && copy.clientOrderId in t.orders && t.orders[copy.clientOrderId].status == FILLED
  {}

  lemma FillMeetsReconcile(config: Config, s: State, q: Pid, copy: Trade) returns (steps: seq<Step>)
    requires q !in s.procs && copy.id in s.rows && s.rows[copy.id] == copy && copy.status.Unknown?
    requires copy.clientOrderId in s.orders && s.orders[copy.clientOrderId].status == NEW
    ensures Run(config, s, steps) && TruthfulRun(config, s, steps)
    ensures var t := After(config, s, steps);
      && t.rows == s.rows && t.procs == s.procs[q := Proc(Asking(copy), None)]
      && copy.clientOrderId in t.orders && t.orders[copy.clientOrderId].status == FILLED
  {
    FillThenReconcile(config, s, q, copy);
    steps := TwoMoreSteps(config, s, [], ExchangeMove(copy.clientOrderId, FILLED), StartReconcile(q, copy.id));
  }

  lemma FillIsRecorded(config: Config, s: State, q: Pid, copy: Trade)
    requires q in s.procs && s.procs[q].activity == Asking(copy) && copy.status.Unknown?
    requires copy.id in s.rows && s.rows[copy.id] == copy
    requires copy.clientOrderId in s.orders && s.orders[copy.clientOrderId].status == FILLED
    ensures Enabled(config, s, Query(q, FILL)) && Truthful(s, Query(q, FILL))
    ensures var t := Next(config, s, Query(q, FILL));
      && Enabled(config, t, Resolve(q)) && Truthful(t, Resolve(q))
      && var end := Next(config, t, Resolve(q));
         && end.procs == s.procs - {q}
         && copy.id in end.rows && end.rows[copy.id].status.Filled?
  {
    assert Next(config, s, Query(q, FILL)) == Become(s, q, Resolving(copy, FromPayload(FILL.body)));
  }

  lemma ClaimedInline(config: Config, s: State, p: Pid, id: TradeId)
    requires p in s.procs && s.procs[p].activity == Created(id)
    requires id in s.rows && s.rows[id].id == id && Claimable(s.rows[id])
    ensures Enabled(config, Next(config, s, GoInline(p)), ClaimRow(p))
    ensures var t := Next(config, Next(config, s, GoInline(p)), ClaimRow(p));
      var trade := s.rows[id].(submitted := true);
      && t.rows == s.rows[id := trade] && t.orders == s.orders
      && t.procs == s.procs[p := Proc(Claimed(id), s.procs[p].ticket)]
  {}

  lemma SentAndTimedOut(config: Config, s: State, p: Pid, trade: Trade)
    requires p in s.procs && s.procs[p].activity == Claimed(trade.id) && trade.id in s.rows && s.rows[trade.id] == trade
    ensures var send := Send(p, false, Some(NEW), TimedOut); var s1 := Next(config, s, Reload(p));
      && Enabled(config, s1, send) && Truthful(s1, send)
      && var t := Next(config, s1, send);
         && t.rows == s.rows && t.orders == s.orders[trade.clientOrderId := Order(RequestOf(trade, false), NEW)]
         && t.procs == s.procs[p := Proc(Answered(trade, NotPlaced(Uncertain(TextCode("timeout")))), s.procs[p].ticket)]
  {}

  const STILL_NEW := Response(200, Object(Missing, NEW, Finite(false, 0, 0), Finite(false, 0, 0), NoCode))

  lemma UnknownAndAsked(config: Config, s: State, p: Pid, trade: Trade)
    requires p in s.procs && s.procs[p].activity == Answered(trade, NotPlaced(Uncertain(TextCode("timeout"))))
    requires trade.id in s.rows && s.rows[trade.id] == trade
    requires trade.clientOrderId in s.orders && s.orders[trade.clientOrderId].status == NEW
    ensures Enabled(config, s, Settle(p))
    ensures var s1 := Next(config, s, Settle(p));
      && Enabled(config, s1, Query(p, STILL_NEW)) && Truthful(s1, Query(p, STILL_NEW))
      && var t := Next(config, s1, Query(p, STILL_NEW));
         var copy := Settled(trade, NotPlaced(Uncertain(TextCode("timeout"))));
         && t.rows == s.rows[trade.id := copy] && t.orders == s.orders && copy.status.Unknown?
         && t.procs == s.procs[p := Proc(Resolving(copy, FromPayload(STILL_NEW.body)), s.procs[p].ticket)]
  {
    FlushOfCurrent(trade, Settled(trade, NotPlaced(Uncertain(TextCode("timeout")))));
  }

  lemma AskedIsInDoubt(config: Config, s: State, p: Pid, trade: Trade)
    requires p in s.procs && s.procs[p].activity == Answered(trade, NotPlaced(Uncertain(TextCode("timeout"))))
    requires trade.id in s.rows && s.rows[trade.id] == trade
    requires trade.clientOrderId in s.orders && s.orders[trade.clientOrderId].status == NEW
    ensures Enabled(config, s, Settle(p))
    ensures var s1 := Next(config, s, Settle(p));
      && Enabled(config, s1, Query(p, STILL_NEW)) && Truthful(s1, Query(p, STILL_NEW))
      && var t := Next(config, s1, Query(p, STILL_NEW)); t.procs.Keys == s.procs.Keys && InDoubt(t, p, trade.id)
  {
    UnknownAndAsked(config, s, p, trade);
    SettledKeepsOrder(trade, NotPlaced(Uncertain(TextCode("timeout"))));
  }

  lemma TimeoutWhileSending(config: Config, s: State, p: Pid, id: TradeId) returns (steps: seq<Step>)
    requires p in s.procs && s.procs[p].activity == Created(id)
    requires id in s.rows && s.rows[id].id == id && Claimable(s.rows[id])
    ensures Run(config, s, steps) && TruthfulRun(config, s, steps)
    ensures var t := After(config, s, steps); var trade := s.rows[id].(submitted := true);
      && t.rows == s.rows[id := trade]
      && t.orders == s.orders[trade.clientOrderId := Order(RequestOf(trade, false), NEW)]
      && t.procs == s.procs[p := Proc(Answered(trade, NotPlaced(Uncertain(TextCode("timeout")))), s.procs[p].ticket)]
  {
    ClaimedInline(config, s, p, id);
    steps := TwoMoreSteps(config, s, [], GoInline(p), ClaimRow(p));
    SentAndTimedOut(config, After(config, s, steps), p, s.rows[id].(submitted := true));
    steps := TwoMoreSteps(config, s, steps, Reload(p), Send(p, false, Some(NEW), TimedOut));
  }

  /** Such a moment is reached by any signal whose order times out after landing ... */
  lemma TimeoutLeavesTradeInDoubt(config: Config, s: State, p: Pid, id: TradeId) returns (steps: seq<Step>)
    requires p in s.procs && s.procs[p].activity == Created(id)
    requires id in s.rows && s.rows[id].id == id && Claimable(s.rows[id])
    ensures Run(config, s, steps) && TruthfulRun(config, s, steps)
    ensures var t := After(config, s, steps); t.procs.Keys == s.procs.Keys && InDoubt(t, p, id)
  {
    var trade := s.rows[id].(submitted := true);
    steps := TimeoutWhileSending(config, s, p, id);
    AskedIsInDoubt(config, After(config, s, steps), p, trade);
    steps := TwoMoreSteps(config, s, steps, Settle(p), Query(p, STILL_NEW));
  }

  /** ... so without the hypothesis the lifecycle is not monotone: every accepted signal has a truthful run
      whose last step takes its trade out of a terminal status. */
  lemma LifecycleFailsUnderOverlap(config: Config, payload: Payload) returns (steps: seq<Step>, reopen: Step)
    requires Accepted(config, payload) && StoreNumeric(payload.quantity).Some?
    ensures Run(config, Start, steps) && TruthfulRun(config, Start, steps)
    ensures var t := After(config, Start, steps);
      Enabled(config, t, reopen) && !MovedForwardOn(t, Next(config, t, reopen), 1)
  {
    var created := SignalCreatesTrade(config, payload);
    RunKeepsInv(config, Start, created);
    var s := After(config, Start, created);
    var doubt := TimeoutLeavesTradeInDoubt(config, s, 0, 1);
    RunKeepsInv(config, s, doubt);
    var settle, last := OverlapReopensSettledTrade(config, After(config, s, doubt), 0, 1, 1);
    RunsCompose(config, s, doubt, settle);
    RunsCompose(config, Start, created, doubt + settle);
    steps, reopen := created + (doubt + settle), last;
  }

  lemma QuietIsHazardFree(s: State, id: TradeId)
    requires QuietOn(s.procs, id)
    ensures !HazardOn(s, id)
  {
    forall p, q | p in s.procs && q in s.procs && ToldNothing(s.procs[p].activity, id)
      ensures SendRight(s.procs[q].activity) != Some(id)
    {
      assert Works(s.procs[p].activity) == Some(id);
      assert SendRight(s.procs[q].activity).Some? ==>
               (p != q && SendRight(s.procs[q].activity) == Works(s.procs[q].activity));
    }
  }

  /** A run without overlap on a trade meets no hazard on it ... */
  lemma {:induction false} QuietRunIsHazardFree(config: Config, s: State, steps: seq<Step>, id: TradeId)
    requires Run(config, s, steps) && QuietRun(config, s, steps, id)
    ensures HazardFreeRun(config, s, steps, id) && !HazardOn(After(config, s, steps), id)
    decreases |steps|
  {
    QuietIsHazardFree(After(config, s, steps), id);
    if steps != [] {
      QuietRunIsHazardFree(config, s, steps[..|steps| - 1], id);
    }
  }

  /** ... so with a truthful exchange its status is honest too. */
  lemma QuietTradesAreHonest(config: Config, steps: seq<Step>, id: TradeId)
    requires Run(config, Start, steps) && TruthfulRun(config, Start, steps) && QuietRun(config, Start, steps, id)
    ensures WarrantedOn(After(config, Start, steps), id)
  {
    QuietRunIsHazardFree(config, Start, steps, id);
    TerminalStatusIsHonest(config, steps, id);
  }
}
