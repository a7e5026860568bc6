/** Queued execution refines inline execution: whatever the interleaving, the number of workers and the
    repetitions in the queue, draining it leaves the table and the exchange exactly as handling each
    signal inline, one after the other, would have. */
module Refinement {
  import opened Wrappers
  import opened Models
  import opened Webhook
  import opened BinanceClient
  import opened Trading
  import opened Protocol
  import opened Safety
  import opened Lifecycle

  // ---------------------------------------------------------------- inline execution

  /** One insert attempt, in the order the database saw them. */
  datatype Entered = Entered(payload: Payload, id: TradeId, createdAt: int)

  datatype World = World(rows: Table, orders: map<string, Order>)

  /** The outside world's part for each client order id; no commit fails and no order moves here. */
  type Script = string -> Fate

  function FateOf(script: Script, t: Trade): Fate {
    script(t.clientOrderId).(moves := [], settleFails := false, reconcileFails := false)
  }

  /** `process_signal` in inline mode, from the insert to the final status. */
  function InlineOne(config: Config, script: Script, w: World, e: Entered): World {
    if !Storable(e.payload) || Clashes(w.rows, e.payload.signalId, config.clientOrderId(e.payload.signalId)) then w
    else
      var claimed := NewTrade(config, e.payload, e.id, e.createdAt).(submitted := true);
      var fate := FateOf(script, claimed);
      World(w.rows[e.id := Submitted(claimed, fate)],
            Land(w.orders, RequestOf(claimed, fate.dryRun), fate.landing))
  }

  function InlineAll(config: Config, script: Script, entries: seq<Entered>): World {
    if entries == [] then World(map[], map[])
    else InlineOne(config, script, InlineAll(config, script, entries[..|entries| - 1]), entries[|entries| - 1])
  }

  // ---------------------------------------------------------------- queued execution

  /** The step follows the script: replies by client order id, no reconciliation job and no other change at
      the exchange. The queue may refuse trades and a crash may lose it, but no crash and no failure meets a
      coroutine with a trade in hand. */
  predicate FollowsScript(config: Config, script: Script, s: State, step: Step) {
    match step
    case Send(p, dryRun, landing, reply) =>
      p in s.procs && s.procs[p].activity.Sending? ==>
        var fate := FateOf(script, s.procs[p].activity.trade);
        dryRun == fate.dryRun && landing == fate.landing && reply == fate.reply
    case Query(p, reply) =>
      p in s.procs && s.procs[p].activity.Asking? ==> reply == FateOf(script, s.procs[p].activity.trade).query
    case StartReconcile(_, _) => false
    case Abort(p) => p in s.procs ==> Works(s.procs[p].activity).None?
    case Crash => forall p :: p in s.procs ==> Works(s.procs[p].activity).None?
    case ExchangeMove(_, _) => false
    case _ => true
  }

  predicate ScriptedRun(config: Config, script: Script, s: State, steps: seq<Step>)
    requires Run(config, s, steps)
    decreases |steps|
  {
    steps == [] ||
    (ScriptedRun(config, script, s, steps[..|steps| - 1]) &&
     FollowsScript(config, script, After(config, s, steps[..|steps| - 1]), steps[|steps| - 1]))
  }

  /** The insert attempts of a run. */
  function Inserts(config: Config, s: State, steps: seq<Step>): seq<Entered>
    requires Run(config, s, steps)
    decreases |steps|
  {
    if steps == [] then []
    else
      var earlier := Inserts(config, s, steps[..|steps| - 1]);
      earlier + Attempt(After(config, s, steps[..|steps| - 1]), steps[|steps| - 1])
  }

  function Attempt(s: State, step: Step): seq<Entered> {
    if step.Insert? && step.p in s.procs && s.procs[step.p].activity.Received?
    then [Entered(s.procs[step.p].activity.payload, step.id, step.createdAt)] else []
  }

  /** No coroutine runs and the queue is empty. */
  predicate Drained(s: State) { s.procs == map[] && s.queue == [] }

  // ---------------------------------------------------------------- stages of one trade

  /** The row as commit #1 wrote it. */
  function Fresh(t: Trade): Trade {
    Trade(t.id, t.userId, t.signalId, t.clientOrderId, t.symbol, t.side, t.quantity,
          Pending, None, None, None, None, None, false, false, t.createdAt)
  }

  function ClaimedForm(t: Trade): Trade { Fresh(t).(submitted := true) }

  function PlacementOf(script: Script, t: Trade): Placement {
    PlaceMarketOrder(FateOf(script, t).dryRun, FateOf(script, t).reply)
  }

  /** The row inline execution would leave. */
  function FinalForm(script: Script, t: Trade): Trade { Submitted(ClaimedForm(t), FateOf(script, t)) }

  /** The order has landed, or not, as the script says. */
  predicate Landed(script: Script, orders: map<string, Order>, t: Trade) {
    var fate := FateOf(script, t);
    match fate.landing
    case None => t.clientOrderId !in orders
    case Some(status) =>
      t.clientOrderId in orders && orders[t.clientOrderId] == Order(RequestOf(t, fate.dryRun), status)
  }

  /** Where a coroutine with a trade in hand stands on the way to the final form. */
  predicate StageOk(script: Script, rows: Table, orders: map<string, Order>, a: Activity) {
    match a
    case Claimed(id) => id in rows && rows[id] == ClaimedForm(rows[id]) && rows[id].clientOrderId !in orders
    case Sending(t) => t.id in rows && rows[t.id] == t == ClaimedForm(t) && t.clientOrderId !in orders
    case Answered(t, placement) =>
      && t.id in rows && rows[t.id] == t == ClaimedForm(t)
      && placement == PlacementOf(script, t) && Landed(script, orders, t)
    case Asking(t) =>
      t.id in rows && rows[t.id] == t == Settled(ClaimedForm(t), PlacementOf(script, t)) &&
      IsUncertain(PlacementOf(script, t)) && Landed(script, orders, t)
    case Resolving(t, found) =>
      && t.id in rows && rows[t.id] == t == Settled(ClaimedForm(t), PlacementOf(script, t))
      && IsUncertain(PlacementOf(script, t)) && Landed(script, orders, t)
      && GetOrder(FateOf(script, t).query) == (if found.Some? then Found(found.value) else NoSuchOrder)
    case _ => true
  }

  predicate InHand(procs: map<Pid, Proc>, id: TradeId) {
    exists p :: p in procs && Works(procs[p].activity) == Some(id)
  }

  /** A trade is waiting to be claimed, in somebody's hand, or in its final form. */
  predicate RowStage(script: Script, s: State, id: TradeId)
    requires id in s.rows
  {
    var t := s.rows[id];
    || (t == Fresh(t) && t.clientOrderId !in s.orders)
    || InHand(s.procs, id)
    || (t == FinalForm(script, t) && Landed(script, s.orders, t))
  }

  /** No two coroutines work on the same trade. */
  predicate Quiet(procs: map<Pid, Proc>) {
    forall p, q :: p in procs && q in procs && p != q && Works(procs[p].activity).Some? ==>
      Works(procs[p].activity) != Works(procs[q].activity)
  }

  predicate OnCourse(script: Script, s: State) {
    && Quiet(s.procs)
    && (forall p :: p in s.procs ==> StageOk(script, s.rows, s.orders, s.procs[p].activity))
    && (forall id :: id in s.rows ==> RowStage(script, s, id))
  }

  // ---------------------------------------------------------------- trades a step does not touch

  /** The trade a coroutine works on or is on the way to claim. */
  function Concerns(a: Activity): Option<TradeId> {
    match a
    case Created(id) => Some(id)
    case Claiming(id) => Some(id)
    case _ => Works(a)
  }

  /** The step of `p` touches at most the one trade. */
  predicate Touches(s: State, t: State, p: Pid, one: Option<TradeId>) {
    && OthersStay(s.procs, t.procs, p)
    && (forall q :: q in s.procs && q != p ==>
          (q in t.procs && (Works(s.procs[q].activity).Some? ==> Works(s.procs[q].activity) != one)))
    && (p in s.procs ==> Concerns(s.procs[p].activity).None? || Concerns(s.procs[p].activity) == one)
    && (forall j :: j in s.rows ==> j in t.rows && (Some(j) != one ==> t.rows[j] == s.rows[j]))
    && (forall j :: j in t.rows && Some(j) != one ==> j in s.rows)
  }

  /** The exchange changes at most under that trade's client order id. */
  ghost predicate OrdersTouch(s: State, t: State, one: Option<TradeId>) {
    t.orders == s.orders ||
    (one.Some? && one.value in t.rows &&
     forall cid :: cid != t.rows[one.value].clientOrderId ==>
       (cid in t.orders <==> cid in s.orders) && (cid in s.orders ==> t.orders[cid] == s.orders[cid]))
  }

  lemma OtherStageStays(script: Script, s: State, t: State, p: Pid, one: Option<TradeId>, j: TradeId)
    requires Touches(s, t, p, one) && OrdersTouch(s, t, one) && RowsUnique(t.rows)
    requires j in s.rows && Some(j) != one && RowStage(script, s, j)
    ensures j in t.rows && RowStage(script, t, j)
  {
    var row := s.rows[j];
    assert t.rows[j] == row;
    assert one.Some? && one.value in t.rows ==> t.rows[one.value].clientOrderId != row.clientOrderId;
    if InHand(s.procs, j) {
      var q :| q in s.procs && Works(s.procs[q].activity) == Some(j);
      assert q in t.procs && Works(t.procs[q].activity) == Some(j);
    }
  }

  lemma OtherActivityStays(script: Script, s: State, t: State, p: Pid, one: Option<TradeId>, q: Pid)
    requires Touches(s, t, p, one) && OrdersTouch(s, t, one) && RowsUnique(t.rows)
    requires q in s.procs && q != p && StageOk(script, s.rows, s.orders, s.procs[q].activity)
    ensures StageOk(script, t.rows, t.orders, s.procs[q].activity)
  {
    var a := s.procs[q].activity;
    if Works(a).Some? {
      var j := Works(a).value;
      assert j in s.rows && j in t.rows && t.rows[j] == s.rows[j];
      assert one.Some? && one.value in t.rows ==> t.rows[one.value].clientOrderId != t.rows[j].clientOrderId;
    }
  }

  /** One step on course: the rest follows from what holds of the trade it touches. */
  lemma StepOnCourse(script: Script, s: State, t: State, p: Pid, one: Option<TradeId>)
    requires OnCourse(script, s) && Touches(s, t, p, one) && OrdersTouch(s, t, one) && RowsUnique(t.rows)
    requires p in t.procs ==>
               StageOk(script, t.rows, t.orders, t.procs[p].activity) &&
               (Works(t.procs[p].activity).Some? ==> Works(t.procs[p].activity) == one)
    requires one.Some? && one.value in t.rows ==> RowStage(script, t, one.value)
    ensures OnCourse(script, t)
  {
    forall q | q in t.procs
      ensures StageOk(script, t.rows, t.orders, t.procs[q].activity)
    {
      if q != p {
        OtherActivityStays(script, s, t, p, one, q);
      }
    }
    forall j | j in t.rows
      ensures RowStage(script, t, j)
    {
      if Some(j) != one {
        OtherStageStays(script, s, t, p, one, j);
      }
    }
  }

  // ---------------------------------------------------------------- one step

  /** A step that changes neither table nor exchange, by a coroutine with no trade in hand before or after. */
  lemma NoTradeOnCourse(script: Script, s: State, t: State, p: Pid)
    requires OnCourse(script, s) && t.rows == s.rows && t.orders == s.orders && OthersStay(s.procs, t.procs, p)
    requires forall q :: q in s.procs && q != p ==> q in t.procs
    requires p in s.procs ==> Works(s.procs[p].activity).None?
    requires p in t.procs ==> Works(t.procs[p].activity).None?
    ensures OnCourse(script, t)
  {
    forall id | id in t.rows
      ensures RowStage(script, t, id)
    {
      assert RowStage(script, s, id);
      if InHand(s.procs, id) {
        var q :| q in s.procs && Works(s.procs[q].activity) == Some(id);
        assert q in t.procs && Works(t.procs[q].activity) == Some(id);
      }
    }
  }

  /** Whoever comes or goes without a trade in hand. */
  lemma HandlessOnCourse(config: Config, script: Script, s: State, step: Step)
    requires OnCourse(script, s) && Enabled(config, s, step) && HoldsNoTrade(step)
    requires step.Abort? ==> Works(s.procs[step.p].activity).None?
    ensures OnCourse(script, Next(config, s, step))
  {
    NoTradeFrame(config, s, step);
    if step.ResumeSubmit? {
      ResumeFrame(s, config.capacity, step.p);
    }
    NoTradeOnCourse(script, s, Next(config, s, step), step.p);
  }

  lemma CrashOnCourse(config: Config, script: Script, s: State)
    requires OnCourse(script, s) && FollowsScript(config, script, s, Crash)
    ensures OnCourse(script, Next(config, s, Crash))
  {
    forall id | id in s.rows
      ensures RowStage(script, Next(config, s, Crash), id)
    {
      assert RowStage(script, s, id);
    }
  }

  lemma InsertOnCourse(config: Config, script: Script, s: State, p: Pid, id: TradeId, createdAt: int)
    requires Inv(config, s) && OnCourse(script, s) && p in s.procs && s.procs[p].activity.Received?
    requires id !in s.rows && Storable(s.procs[p].activity.payload)
    ensures OnCourse(script, InsertStep(config, s, p, id, createdAt))
  {
    var t := InsertStep(config, s, p, id, createdAt);
    var payload := s.procs[p].activity.payload;
    if Clashes(s.rows, payload.signalId, config.clientOrderId(payload.signalId)) {
      NoTradeOnCourse(script, s, t, p);
    } else {
      InsertGrowsRows(config, s.rows, payload, id, createdAt);
      NewOrderIdUnused(config, s, config.clientOrderId(payload.signalId));
      NewRowOnCourse(script, s, t, p, NewTrade(config, payload, id, createdAt));
    }
  }

  lemma NewRowOnCourse(script: Script, s: State, t: State, p: Pid, row: Trade)
    requires OnCourse(script, s) && p in s.procs && Concerns(s.procs[p].activity).None?
    requires row.id !in s.rows && row == Fresh(row) && row.clientOrderId !in s.orders
    requires t.rows == s.rows[row.id := row] && t.orders == s.orders && t.queue == s.queue && RowsUnique(t.rows)
    requires t.procs == s.procs[p := s.procs[p].(activity := Created(row.id))]
    ensures OnCourse(script, t)
  {
    assert t.procs[p].activity == Created(row.id);
    NobodyWorksOn(script, s, row.id);
    StepOnCourse(script, s, t, p, Some(row.id));
  }

  lemma NewOrderIdUnused(config: Config, s: State, cid: string)
    requires Inv(config, s) && forall id :: id in s.rows ==> s.rows[id].clientOrderId != cid
    ensures cid !in s.orders
  {
    forall other | other in s.orders
      ensures other != cid
    {
      assert FromRow(s.rows, s.orders[other].request);
    }
  }

  /** Trades in hand are submitted. */
  lemma NobodyWorksOn(script: Script, s: State, id: TradeId)
    requires OnCourse(script, s) && (id !in s.rows || !s.rows[id].submitted)
    ensures forall p :: p in s.procs ==> Works(s.procs[p].activity) != Some(id)
  {
    forall p | p in s.procs
      ensures Works(s.procs[p].activity) != Some(id)
    {
      var a := s.procs[p].activity;
      assert StageOk(script, s.rows, s.orders, a);
      if a.Asking? || a.Resolving? {
        SettledKeepsOrder(ClaimedForm(a.trade), PlacementOf(script, a.trade));
      }
    }
  }

  lemma FinalIsSubmitted(script: Script, t: Trade)
    ensures FinalForm(script, t).submitted && SameOrder(FinalForm(script, t), t)
  {
    SubmissionNeverGuesses(ClaimedForm(t), FateOf(script, t));
  }

  /** A claimable row is as commit #1 left it, and nobody has it in hand. */
  lemma ClaimableIsFresh(script: Script, s: State, id: TradeId)
    requires OnCourse(script, s) && id in s.rows && Claimable(s.rows[id])
    ensures s.rows[id] == Fresh(s.rows[id]) && s.rows[id].clientOrderId !in s.orders
    ensures forall p :: p in s.procs ==> Works(s.procs[p].activity) != Some(id)
  {
    NobodyWorksOn(script, s, id);
    FinalIsSubmitted(script, s.rows[id]);
    assert RowStage(script, s, id);
  }

  lemma ClaimOnCourse(config: Config, script: Script, s: State, p: Pid)
    requires RowsFiled(config, s.rows) && RowsUnique(s.rows) && OnCourse(script, s) && p in s.procs
    requires s.procs[p].activity.Claiming?
    ensures OnCourse(script, ClaimStep(s, p))
  {
    var t := ClaimStep(s, p);
    var id := s.procs[p].activity.tradeId;
    if id in s.rows && Claimable(s.rows[id]) {
      ClaimGrowsRows(config, s.rows, id);
      ClaimWonOnCourse(script, s, t, p, id);
    } else {
      NoTradeOnCourse(script, s, t, p);
    }
  }

  lemma ClaimWonOnCourse(script: Script, s: State, t: State, p: Pid, id: TradeId)
    requires OnCourse(script, s) && RowsUnique(t.rows) && p in s.procs && s.procs[p].activity == Claiming(id)
    requires id in s.rows && Claimable(s.rows[id]) && t.rows == s.rows[id := s.rows[id].(submitted := true)]
    requires t.procs == s.procs[p := s.procs[p].(activity := Claimed(id))] && t.orders == s.orders && t.queue == s.queue
    ensures OnCourse(script, t)
  {
    ClaimableIsFresh(script, s, id);
    HandsOnCourse(script, s, t, p, id);
  }

  /** A step of the only coroutine working on trade `id`, or the one that takes it in hand. */
  lemma HandsOnCourse(script: Script, s: State, t: State, p: Pid, id: TradeId)
    requires OnCourse(script, s) && RowsUnique(t.rows) && id in s.rows && p in s.procs
    requires OthersStay(s.procs, t.procs, p) && forall q :: q in s.procs && q != p ==> q in t.procs
    requires Concerns(s.procs[p].activity) == Some(id) && t.queue == s.queue
    requires forall q :: q in s.procs && q != p ==> Works(s.procs[q].activity) != Some(id)
    requires t.rows.Keys == s.rows.Keys && forall j :: j in s.rows && j != id ==> t.rows[j] == s.rows[j]
    requires OrdersTouch(s, t, Some(id))
    requires p in t.procs ==>
               Works(t.procs[p].activity) == Some(id) && StageOk(script, t.rows, t.orders, t.procs[p].activity)
    requires p !in t.procs ==> t.rows[id] == FinalForm(script, t.rows[id]) && Landed(script, t.orders, t.rows[id])
    ensures OnCourse(script, t)
  {
    assert p in t.procs ==> InHand(t.procs, id);
    StepOnCourse(script, s, t, p, Some(id));
  }

  lemma AloneWithTrade(s: State, p: Pid)
    requires Quiet(s.procs) && p in s.procs && Works(s.procs[p].activity).Some?
    ensures forall q :: q in s.procs && q != p ==> Works(s.procs[q].activity) != Works(s.procs[p].activity)
  {}

  lemma ReloadOnCourse(config: Config, script: Script, s: State, p: Pid)
    requires RowsFiled(config, s.rows) && RowsUnique(s.rows) && OnCourse(script, s) && p in s.procs
    requires s.procs[p].activity.Claimed?
    requires s.procs[p].activity.tradeId in s.rows
    ensures OnCourse(script, ReloadStep(s, p))
  {
    AloneWithTrade(s, p);
    assert StageOk(script, s.rows, s.orders, s.procs[p].activity);
    HandsOnCourse(script, s, ReloadStep(s, p), p, s.procs[p].activity.tradeId);
  }

  lemma LandsAsScripted(script: Script, orders: map<string, Order>, t: Trade)
    requires t.clientOrderId !in orders
    ensures var fate := FateOf(script, t);
      Landed(script, Land(orders, RequestOf(t, fate.dryRun), fate.landing), t)
  {}

  lemma FinalUnlessUncertain(script: Script, t: Trade)
    requires !IsUncertain(PlacementOf(script, t))
    ensures FinalForm(script, t) == Settled(ClaimedForm(t), PlacementOf(script, t))
  {}

  lemma FinalAfterQuery(script: Script, t: Trade)
    requires IsUncertain(PlacementOf(script, t))
    ensures var settled := Settled(ClaimedForm(t), PlacementOf(script, t));
      && settled.status.Unknown?
      && FinalForm(script, t) ==
           match GetOrder(FateOf(script, t).query)
           case Found(order) => Resolved(settled, Some(order))
           case NoSuchOrder => Resolved(settled, None)
           case _ => settled
  {}

  lemma SendOnCourse(config: Config, script: Script, s: State, p: Pid)
    requires RowsFiled(config, s.rows) && RowsUnique(s.rows) && OnCourse(script, s) && p in s.procs
    requires s.procs[p].activity.Sending?
    ensures var fate := FateOf(script, s.procs[p].activity.trade);
      OnCourse(script, SendStep(s, p, fate.dryRun, fate.landing, fate.reply))
  {
    var trade := s.procs[p].activity.trade;
    var fate := FateOf(script, trade);
    AloneWithTrade(s, p);
    assert StageOk(script, s.rows, s.orders, s.procs[p].activity);
    SentAsScripted(script, s, p);
    HandsOnCourse(script, s, SendStep(s, p, fate.dryRun, fate.landing, fate.reply), p, trade.id);
  }

  lemma SentAsScripted(script: Script, s: State, p: Pid)
    requires p in s.procs && s.procs[p].activity.Sending? && StageOk(script, s.rows, s.orders, s.procs[p].activity)
    ensures var trade := s.procs[p].activity.trade; var fate := FateOf(script, trade);
      var t := SendStep(s, p, fate.dryRun, fate.landing, fate.reply);
      && t.rows == s.rows && t.queue == s.queue && OthersStay(s.procs, t.procs, p) && t.procs - {p} == s.procs - {p}
      && OrdersTouch(s, t, Some(trade.id)) && Landed(script, t.orders, trade)
      && (p in t.procs ==>
            (Works(t.procs[p].activity) == Some(trade.id) && StageOk(script, t.rows, t.orders, t.procs[p].activity)))
      && (p !in t.procs ==> t.rows[trade.id] == FinalForm(script, t.rows[trade.id]))
  {
    var trade := s.procs[p].activity.trade;
    LandsAsScripted(script, s.orders, trade);
    if PlacementOf(script, trade).Broke? {
      FinalUnlessUncertain(script, trade);
    }
  }

  /** Identity columns are all the script looks at. */
  lemma SameScript(script: Script, a: Trade, b: Trade)
    requires SameOrder(a, b)
    ensures ClaimedForm(a) == ClaimedForm(b) && FateOf(script, a) == FateOf(script, b)
    ensures PlacementOf(script, a) == PlacementOf(script, b) && FinalForm(script, a) == FinalForm(script, b)
  {}

  lemma LandedSame(script: Script, orders: map<string, Order>, a: Trade, b: Trade)
    requires SameOrder(a, b) && Landed(script, orders, a)
    ensures Landed(script, orders, b)
  {}

  /** A commit of an edited copy, which is either the final form or an outcome still to be asked about. */
  lemma EditOnCourse(config: Config, script: Script, s: State, t: State, p: Pid, trade: Trade, edited: Trade)
    requires RowsFiled(config, s.rows) && RowsUnique(s.rows) && OnCourse(script, s) && p in s.procs
    requires Works(s.procs[p].activity) == Some(trade.id) && trade.id in s.rows && s.rows[trade.id] == trade
    requires SameOrder(trade, edited) && edited.submitted == trade.submitted && Landed(script, s.orders, trade)
    requires t.rows == Write(s.rows, trade, edited) && t.orders == s.orders && t.queue == s.queue
    requires OthersStay(s.procs, t.procs, p) && forall q :: q in s.procs && q != p ==> q in t.procs
    requires p in t.procs ==>
               t.procs[p].activity == Asking(edited) && IsUncertain(PlacementOf(script, trade)) &&
               edited == Settled(ClaimedForm(trade), PlacementOf(script, trade))
    requires p !in t.procs ==> edited == FinalForm(script, trade)
    ensures OnCourse(script, t)
  {
    EditedRow(config, script, s.rows, s.orders, trade, edited);
    EditedOnCourse(script, s, t, p, trade, edited);
  }

  lemma EditedOnCourse(script: Script, s: State, t: State, p: Pid, trade: Trade, edited: Trade)
    requires OnCourse(script, s) && p in s.procs && Works(s.procs[p].activity) == Some(trade.id)
    requires trade.id in s.rows && t.rows == s.rows[trade.id := edited] && edited.id == trade.id && RowsUnique(t.rows)
    requires t.orders == s.orders && t.queue == s.queue
    requires OthersStay(s.procs, t.procs, p) && forall q :: q in s.procs && q != p ==> q in t.procs
    requires p in t.procs ==>
               t.procs[p].activity == Asking(edited) && StageOk(script, t.rows, t.orders, t.procs[p].activity)
    requires p !in t.procs ==> edited == FinalForm(script, edited) && Landed(script, t.orders, edited)
    ensures OnCourse(script, t)
  {
    AloneWithTrade(s, p);
    HandsOnCourse(script, s, t, p, trade.id);
  }

  lemma EditedRow(config: Config, script: Script, rows: Table, orders: map<string, Order>, trade: Trade, edited: Trade)
    requires RowsFiled(config, rows) && RowsUnique(rows) && trade.id in rows && rows[trade.id] == trade
    requires SameOrder(trade, edited) && edited.submitted == trade.submitted && Landed(script, orders, trade)
    ensures Write(rows, trade, edited) == rows[trade.id := edited] && RowsUnique(rows[trade.id := edited])
    ensures Landed(script, orders, edited) && FateOf(script, edited) == FateOf(script, trade)
    ensures ClaimedForm(edited) == ClaimedForm(trade) && FinalForm(script, edited) == FinalForm(script, trade)
  {
    WriteGrowsRows(config, rows, trade, edited);
    WriteOverCurrent(rows, trade, edited);
    SameScript(script, trade, edited);
    LandedSame(script, orders, trade, edited);
  }

  lemma SettleOnCourse(config: Config, script: Script, s: State, p: Pid)
    requires RowsFiled(config, s.rows) && RowsUnique(s.rows) && OnCourse(script, s)
    requires p in s.procs && s.procs[p].activity.Answered? && s.procs[p].activity.trade.id in s.rows
    ensures OnCourse(script, SettleStep(s, p))
  {
    var trade, placement := s.procs[p].activity.trade, s.procs[p].activity.placement;
    assert StageOk(script, s.rows, s.orders, s.procs[p].activity);
    SettledKeepsOrder(trade, placement);
    if !IsUncertain(placement) {
      FinalUnlessUncertain(script, trade);
    }
    EditOnCourse(config, script, s, SettleStep(s, p), p, trade, Settled(trade, placement));
  }

  lemma AskedInVain(script: Script, s: State, p: Pid, trade: Trade)
    requires RowsUnique(s.rows) && OnCourse(script, s) && p in s.procs && s.procs[p].activity == Asking(trade)
    requires FinalForm(script, trade) == Settled(ClaimedForm(trade), PlacementOf(script, trade))
    ensures OnCourse(script, Finish(s, p))
  {
    AloneWithTrade(s, p);
    assert StageOk(script, s.rows, s.orders, s.procs[p].activity);
    HandsOnCourse(script, s, Finish(s, p), p, trade.id);
  }

  lemma QueryOnCourse(config: Config, script: Script, s: State, p: Pid)
    requires RowsUnique(s.rows) && OnCourse(script, s) && p in s.procs && s.procs[p].activity.Asking?
    ensures OnCourse(script, QueryStep(s, p, FateOf(script, s.procs[p].activity.trade).query))
  {
    var trade := s.procs[p].activity.trade;
    AloneWithTrade(s, p);
    assert StageOk(script, s.rows, s.orders, s.procs[p].activity);
    FinalAfterQuery(script, trade);
    match GetOrder(FateOf(script, trade).query)
    case Found(order) => AnsweredOnCourse(script, s, p, trade, Some(order));
    case NoSuchOrder => AnsweredOnCourse(script, s, p, trade, None);
    case _ => AskedInVain(script, s, p, trade);
  }

  lemma AnsweredOnCourse(script: Script, s: State, p: Pid, trade: Trade, found: Option<OrderResult>)
    requires RowsUnique(s.rows) && OnCourse(script, s) && p in s.procs && s.procs[p].activity == Asking(trade)
    requires forall q :: q in s.procs && q != p ==> Works(s.procs[q].activity) != Some(trade.id)
    requires GetOrder(FateOf(script, trade).query) == if found.Some? then Found(found.value) else NoSuchOrder
    ensures OnCourse(script, Become(s, p, Resolving(trade, found)))
  {
    assert StageOk(script, s.rows, s.orders, s.procs[p].activity);
    HandsOnCourse(script, s, Become(s, p, Resolving(trade, found)), p, trade.id);
  }

  lemma ResolveOnCourse(config: Config, script: Script, s: State, p: Pid)
    requires RowsFiled(config, s.rows) && RowsUnique(s.rows) && OnCourse(script, s)
    requires p in s.procs && s.procs[p].activity.Resolving? && s.procs[p].activity.trade.id in s.rows
    ensures OnCourse(script, ResolveStep(s, p))
  {
    var trade, found := s.procs[p].activity.trade, s.procs[p].activity.found;
    assert StageOk(script, s.rows, s.orders, s.procs[p].activity);
    FinalAfterQuery(script, trade);
    ResolvedKeepsOrder(trade, found);
    EditOnCourse(config, script, s, ResolveStep(s, p), p, trade, Resolved(trade, found));
  }

  lemma ScriptedStepOnCourse(config: Config, script: Script, s: State, step: Step)
    requires Inv(config, s) && OnCourse(script, s) && Enabled(config, s, step) && FollowsScript(config, script, s, step)
    ensures OnCourse(script, Next(config, s, step))
  {
    if HoldsNoTrade(step) {
      HandlessOnCourse(config, script, s, step);
    } else if step.Insert? {
      InsertOnCourse(config, script, s, step.p, step.id, step.createdAt);
    } else if step.ClaimRow? {
      ClaimOnCourse(config, script, s, step.p);
    } else if step.Reload? {
      ReloadOnCourse(config, script, s, step.p);
    } else if step.Send? {
      SendOnCourse(config, script, s, step.p);
    } else if step.Settle? {
      SettleOnCourse(config, script, s, step.p);
    } else if step.Query? {
      QueryOnCourse(config, script, s, step.p);
    } else if step.Resolve? {
      ResolveOnCourse(config, script, s, step.p);
    } else if step.Crash? {
      CrashOnCourse(config, script, s);
    }
  }

  // ---------------------------------------------------------------- the simulation

  /** `w` is what inline execution has made of the signals that have entered so far. */
  ghost predicate Simulates(script: Script, s: State, w: World) {
    && w.rows.Keys == s.rows.Keys
    && (forall id :: id in s.rows ==>
          (w.rows[id] == FinalForm(script, s.rows[id]) && Landed(script, w.orders, s.rows[id])))
    && (forall cid :: cid in w.orders ==> HasRow(s.rows, cid))
  }

  predicate HasRow(rows: Table, cid: string) {
    exists id :: id in rows && rows[id].clientOrderId == cid
  }

  lemma GrowthSimulates(script: Script, s: State, t: State, w: World)
    requires Simulates(script, s, w) && RowsGrow(s.rows, t.rows) && t.rows.Keys == s.rows.Keys
    ensures Simulates(script, t, w)
  {
    forall id | id in t.rows
      ensures w.rows[id] == FinalForm(script, t.rows[id]) && Landed(script, w.orders, t.rows[id])
    {
      SameScript(script, s.rows[id], t.rows[id]);
      LandedSame(script, w.orders, s.rows[id], t.rows[id]);
    }
    forall cid | cid in w.orders
      ensures HasRow(t.rows, cid)
    {
      var id :| id in s.rows && s.rows[id].clientOrderId == cid;
      assert id in t.rows && t.rows[id].clientOrderId == cid;
    }
  }

  lemma ClashesAlike(script: Script, s: State, w: World, signalId: string, cid: string)
    requires Simulates(script, s, w)
    ensures Clashes(s.rows, signalId, cid) <==> Clashes(w.rows, signalId, cid)
  {
    forall id | id in s.rows
      ensures SameOrder(w.rows[id], s.rows[id])
    {
      FinalIsSubmitted(script, s.rows[id]);
    }
  }

  lemma InsertSimulates(config: Config, script: Script, s: State, p: Pid, id: TradeId, createdAt: int, w: World)
    requires RowsFiled(config, s.rows) && RowsUnique(s.rows) && Simulates(script, s, w)
    requires p in s.procs && s.procs[p].activity.Received? && id !in s.rows && Storable(s.procs[p].activity.payload)
    ensures Simulates(script, InsertStep(config, s, p, id, createdAt),
                      InlineOne(config, script, w, Entered(s.procs[p].activity.payload, id, createdAt)))
  {
    var payload := s.procs[p].activity.payload;
    var cid := config.clientOrderId(payload.signalId);
    ClashesAlike(script, s, w, payload.signalId, cid);
    if !Clashes(s.rows, payload.signalId, cid) {
      var row := NewTrade(config, payload, id, createdAt);
      assert cid !in w.orders;
      LandsAsScripted(script, w.orders, ClaimedForm(row));
      AddedSimulates(script, s, InsertStep(config, s, p, id, createdAt), w, row);
    }
  }

  lemma LandingLeavesOthers(script: Script, orders: map<string, Order>, request: OrderRequest,
                            landing: Option<OrderStatus>, t: Trade)
    requires Landed(script, orders, t) && t.clientOrderId != request.clientOrderId
    ensures Landed(script, Land(orders, request, landing), t)
  {}

  lemma AllStillLanded(script: Script, rows: Table, orders: map<string, Order>, request: OrderRequest,
                       landing: Option<OrderStatus>)
    requires forall id :: id in rows ==>
               Landed(script, orders, rows[id]) && rows[id].clientOrderId != request.clientOrderId
    ensures forall id :: id in rows ==> Landed(script, Land(orders, request, landing), rows[id])
  {
    forall id | id in rows
      ensures Landed(script, Land(orders, request, landing), rows[id])
    {
      LandingLeavesOthers(script, orders, request, landing, rows[id]);
    }
  }

  lemma AddedSimulates(script: Script, s: State, t: State, w: World, row: Trade)
    requires Simulates(script, s, w) && row.id !in s.rows && row == Fresh(row)
    requires forall id :: id in s.rows ==> s.rows[id].clientOrderId != row.clientOrderId
    requires t.rows == s.rows[row.id := row]
    requires var fate := FateOf(script, row);
      Landed(script, Land(w.orders, RequestOf(ClaimedForm(row), fate.dryRun), fate.landing), row)
    ensures var fate := FateOf(script, row);
      Simulates(script, t, World(w.rows[row.id := FinalForm(script, row)],
                                 Land(w.orders, RequestOf(ClaimedForm(row), fate.dryRun), fate.landing)))
  {
    var request, landing := RequestOf(ClaimedForm(row), FateOf(script, row).dryRun), FateOf(script, row).landing;
    AllStillLanded(script, s.rows, w.orders, request, landing);
    OrdersHaveRows(s.rows, w.orders, row, request, landing);
    ExtendedSimulates(script, s, t, w, row, Land(w.orders, request, landing));
  }

  lemma ExtendedSimulates(script: Script, s: State, t: State, w: World, row: Trade, orders: map<string, Order>)
    requires Simulates(script, s, w) && row.id !in s.rows && t.rows == s.rows[row.id := row]
    requires Landed(script, orders, row) && forall id :: id in s.rows ==> Landed(script, orders, s.rows[id])
    requires forall cid :: cid in orders ==> HasRow(t.rows, cid)
    ensures Simulates(script, t, World(w.rows[row.id := FinalForm(script, row)], orders))
  {}

  lemma OrdersHaveRows(rows: Table, orders: map<string, Order>, row: Trade, request: OrderRequest,
                       landing: Option<OrderStatus>)
    requires forall cid :: cid in orders ==> HasRow(rows, cid)
    requires row.id !in rows && request.clientOrderId == row.clientOrderId
    ensures forall cid :: cid in Land(orders, request, landing) ==> HasRow(rows[row.id := row], cid)
  {
    var more := rows[row.id := row];
    forall cid | cid in Land(orders, request, landing)
      ensures HasRow(more, cid)
    {
      if cid == row.clientOrderId {
        assert more[row.id].clientOrderId == cid;
      } else {
        var id :| id in rows && rows[id].clientOrderId == cid;
        assert more[id].clientOrderId == cid;
      }
    }
  }

  lemma StepSimulates(config: Config, script: Script, s: State, step: Step, w: World)
    requires RowsFiled(config, s.rows) && RowsUnique(s.rows) && Simulates(script, s, w) && Enabled(config, s, step)
    requires FollowsScript(config, script, s, step)
    ensures Simulates(script, Next(config, s, step),
                      if step.Insert? then InlineOne(config, script, w, Attempt(s, step)[0]) else w)
  {
    if step.Insert? {
      InsertSimulates(config, script, s, step.p, step.id, step.createdAt, w);
    } else {
      RowsOnlyGrow(config, s, step);
      GrowthSimulates(script, s, Next(config, s, step), w);
    }
  }

  lemma InlineExtends(config: Config, script: Script, entries: seq<Entered>, s: State, step: Step)
    requires Enabled(config, s, step)
    ensures InlineAll(config, script, entries + Attempt(s, step))
         == if step.Insert? then InlineOne(config, script, InlineAll(config, script, entries), Attempt(s, step)[0])
            else InlineAll(config, script, entries)
  {
    if step.Insert? {
      assert (entries + Attempt(s, step))[..|entries|] == entries;
    } else {
      assert entries + Attempt(s, step) == entries;
    }
  }

  lemma {:induction false} RunOnCourse(config: Config, script: Script, steps: seq<Step>)
    requires Run(config, Start, steps) && ScriptedRun(config, script, Start, steps)
    ensures OnCourse(script, After(config, Start, steps))
    decreases |steps|
  {
    if steps != [] {
      RunOnCourse(config, script, steps[..|steps| - 1]);
      RunKeepsInv(config, Start, steps[..|steps| - 1]);
      ScriptedStepOnCourse(config, script, After(config, Start, steps[..|steps| - 1]), steps[|steps| - 1]);
    }
  }

  lemma {:induction false} RunSimulates(config: Config, script: Script, steps: seq<Step>)
    requires Run(config, Start, steps) && ScriptedRun(config, script, Start, steps)
    ensures Simulates(script, After(config, Start, steps), InlineAll(config, script, Inserts(config, Start, steps)))
    decreases |steps|
  {
    if steps != [] {
      var earlier, last := steps[..|steps| - 1], steps[|steps| - 1];
      RunSimulates(config, script, earlier);
      RunKeepsInv(config, Start, earlier);
      var s := After(config, Start, earlier);
      var entries := Inserts(config, Start, earlier);
      InlineExtends(config, script, entries, s, last);
      StepSimulates(config, script, s, last, InlineAll(config, script, entries));
    }
  }

  predicate NoneWaits(rows: Table) { forall id :: id in rows ==> !Claimable(rows[id]) }

  lemma DrainedIsFinal(script: Script, s: State)
    requires OnCourse(script, s) && Drained(s) && NoneWaits(s.rows)
    ensures forall id :: id in s.rows ==>
              s.rows[id] == FinalForm(script, s.rows[id]) && Landed(script, s.orders, s.rows[id])
  {
    forall id | id in s.rows
      ensures s.rows[id] == FinalForm(script, s.rows[id]) && Landed(script, s.orders, s.rows[id])
    {
      assert RowStage(script, s, id);
    }
  }

  lemma FinalTable(script: Script, s: State, w: World)
    requires Simulates(script, s, w) && forall id :: id in s.rows ==> s.rows[id] == FinalForm(script, s.rows[id])
    ensures s.rows == w.rows
  {}

  lemma InlineLeavesNoneWaiting(script: Script, s: State, w: World)
    requires Simulates(script, s, w)
    ensures NoneWaits(w.rows)
  {
    forall id | id in w.rows
      ensures !Claimable(w.rows[id])
    {
      FinalIsSubmitted(script, s.rows[id]);
    }
  }

  /** The promise, exactly: after any run that follows the script, with any number of coroutines, any
      interleaving, any refused trades, lost queues and repeated resumes, when no coroutine runs and the
      queue is empty, the table and the exchange's orders are those of inline execution of the same inserts
      in the same order if and only if no row is still waiting to be claimed. */
  lemma QueuedRefinesInline(config: Config, script: Script, steps: seq<Step>)
    requires Run(config, Start, steps) && ScriptedRun(config, script, Start, steps)
    requires Drained(After(config, Start, steps))
    ensures var s := After(config, Start, steps);
      World(s.rows, s.orders) == InlineAll(config, script, Inserts(config, Start, steps)) <==> NoneWaits(s.rows)
  {
    RunOnCourse(config, script, steps);
    RunSimulates(config, script, steps);
    RunKeepsInv(config, Start, steps);
    var s := After(config, Start, steps);
    var w := InlineAll(config, script, Inserts(config, Start, steps));
    InlineLeavesNoneWaiting(script, s, w);
    if NoneWaits(s.rows) {
      DrainedIsFinal(script, s);
      FinalTable(script, s, w);
      SameLanding(script, s, w);
    }
  }

  lemma SameLanding(script: Script, s: State, w: World)
    requires SentFromRows(s.rows, s.sent) && OrdersFromSent(s.orders, s.sent) && Simulates(script, s, w)
    requires forall id :: id in s.rows ==> Landed(script, s.orders, s.rows[id])
    ensures s.orders == w.orders
  {
    forall cid | cid in s.orders
      ensures cid in w.orders && w.orders[cid] == s.orders[cid]
    {
      assert FromRow(s.rows, s.orders[cid].request);
      assert Landed(script, s.orders, s.rows[s.orders[cid].request.tradeId]);
    }
    forall cid | cid in w.orders
      ensures cid in s.orders
    {
      var id :| id in s.rows && s.rows[id].clientOrderId == cid;
      assert Landed(script, s.orders, s.rows[id]);
    }
  }
}
