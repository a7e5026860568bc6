/** What every run of the protocol keeps, with no assumption on what the exchange answers, which
    steps interleave, which commits fail or when the process dies. */
module Safety {
  import opened Wrappers
  import opened Models
  import opened Webhook
  import opened BinanceClient
  import opened Trading
  import opened Protocol

  // ---------------------------------------------------------------- the invariant

  /** Rows are filed under their id and carry the client order id of their signal. */
  predicate RowsFiled(config: Config, rows: Table) {
    forall id :: id in rows ==>
      rows[id].id == id && rows[id].clientOrderId == config.clientOrderId(rows[id].signalId)
  }

  /** Both UNIQUE indexes hold. */
  predicate RowsUnique(rows: Table) {
    forall i, j :: i in rows && j in rows && i != j ==>
      rows[i].signalId != rows[j].signalId && rows[i].clientOrderId != rows[j].clientOrderId
  }

  /** An in-memory copy still describes its row's order, and `submitted_at` is not older than it knows. */
  predicate CopyOf(rows: Table, t: Trade) {
    t.id in rows && SameOrder(t, rows[t.id]) && (t.submitted ==> rows[t.id].submitted)
  }

  predicate ActivityOk(rows: Table, a: Activity) {
    match a
    case Created(id) => id in rows
    case Claimed(id) => id in rows && rows[id].submitted
    case Sending(t) => CopyOf(rows, t) && t.submitted
    case Answered(t, _) => CopyOf(rows, t) && t.submitted
    case Asking(t) => CopyOf(rows, t) && !IsTerminal(t.status)
    case Resolving(t, _) => CopyOf(rows, t) && !IsTerminal(t.status)
    case _ => true
  }

  predicate MemoryOk(rows: Table, procs: map<Pid, Proc>) {
    forall p :: p in procs ==> ActivityOk(rows, procs[p].activity)
  }

  /** The trade this coroutine has claimed and not yet sent. */
  function SendRight(a: Activity): Option<TradeId> {
    match a
    case Claimed(id) => Some(id)
    case Sending(t) => Some(t.id)
    case _ => None
  }

  /** No trade was sent twice, and whoever may still send one is alone and finds it unsent. */
  predicate SentOnce(procs: map<Pid, Proc>, sent: seq<OrderRequest>) {
    && (forall i, j :: 0 <= i < j < |sent| ==> sent[i].tradeId != sent[j].tradeId)
    && (forall p, i :: p in procs && 0 <= i < |sent| ==> SendRight(procs[p].activity) != Some(sent[i].tradeId))
    && (forall p, q :: p in procs && q in procs && p != q && SendRight(procs[p].activity).Some? ==>
          SendRight(procs[p].activity) != SendRight(procs[q].activity))
  }

  /** Every request sent is the order of a committed row whose `submitted_at` is set. */
  predicate SentFromRows(rows: Table, sent: seq<OrderRequest>) {
    forall i :: 0 <= i < |sent| ==> FromRow(rows, sent[i])
  }

  predicate FromRow(rows: Table, request: OrderRequest) {
    request.tradeId in rows && rows[request.tradeId].submitted &&
    request == RequestOf(rows[request.tradeId], request.dryRun)
  }

  /** Every order at the exchange came from a request of ours. */
  predicate OrdersFromSent(orders: map<string, Order>, sent: seq<OrderRequest>) {
    forall cid :: cid in orders ==> orders[cid].request in sent && orders[cid].request.clientOrderId == cid
  }

  predicate Inv(config: Config, s: State) {
    && RowsFiled(config, s.rows) && RowsUnique(s.rows) && MemoryOk(s.rows, s.procs)
    && SentOnce(s.procs, s.sent) && SentFromRows(s.rows, s.sent) && OrdersFromSent(s.orders, s.sent)
  }

  // ---------------------------------------------------------------- rows only grow

  /** Rows are never deleted, keep their order, and never lose `submitted_at`. */
  predicate RowsGrow(before: Table, after: Table) {
    forall id :: id in before ==>
      id in after && SameOrder(before[id], after[id]) && (before[id].submitted ==> after[id].submitted)
  }

  /** Replacing a row by one that stands for the same order. */
  lemma UpdateGrowsRows(config: Config, rows: Table, id: TradeId, row: Trade)
    requires RowsFiled(config, rows) && RowsUnique(rows) && id in rows
    requires SameOrder(rows[id], row) && (rows[id].submitted ==> row.submitted)
    ensures var after := rows[id := row];
      RowsFiled(config, after) && RowsUnique(after) && RowsGrow(rows, after) && after.Keys == rows.Keys
  {}

  /** Committing an edit of a copy, current or stale, keeps the UNIQUE indexes, the row's order and its
      `submitted_at`. */
  lemma WriteGrowsRows(config: Config, rows: Table, loaded: Trade, edited: Trade)
    requires RowsFiled(config, rows) && RowsUnique(rows) && loaded.id in rows && loaded.submitted == edited.submitted
    ensures var after := Write(rows, loaded, edited);
      RowsFiled(config, after) && RowsUnique(after) && RowsGrow(rows, after) && after.Keys == rows.Keys
  {
    UpdateGrowsRows(config, rows, loaded.id, Flush(rows[loaded.id], loaded, edited));
  }

  lemma InsertGrowsRows(config: Config, rows: Table, payload: Payload, id: TradeId, createdAt: int)
    requires RowsFiled(config, rows) && RowsUnique(rows) && id !in rows && Storable(payload)
    requires !Clashes(rows, payload.signalId, config.clientOrderId(payload.signalId))
    ensures var after := rows[id := NewTrade(config, payload, id, createdAt)];
      RowsFiled(config, after) && RowsUnique(after) && RowsGrow(rows, after)
  {}

  lemma ClaimGrowsRows(config: Config, rows: Table, id: TradeId)
    requires RowsFiled(config, rows) && RowsUnique(rows)
    ensures var after := Claim(rows, id);
      RowsFiled(config, after) && RowsUnique(after) && RowsGrow(rows, after) && after.Keys == rows.Keys
  {
    if id in rows && Claimable(rows[id]) {
      UpdateGrowsRows(config, rows, id, rows[id].(submitted := true));
    }
  }

  /** Filling the queue touches nothing else. */
  lemma {:induction false} PutAllFrame(s: State, capacity: nat, ids: seq<TradeId>)
    ensures var t := PutAll(s, capacity, ids);
      t.rows == s.rows && t.orders == s.orders && t.procs == s.procs && t.sent == s.sent && t.answers == s.answers
    decreases |ids|
  {
    if ids != [] {
      PutAllFrame(Put(s, capacity, ids[0]), capacity, ids[1..]);
    }
  }

  // ---------------------------------------------------------------- one step

  /** Coroutines other than `p` stand where they stood. */
  predicate OthersStay(before: map<Pid, Proc>, after: map<Pid, Proc>, p: Pid) {
    forall q :: q in after && q != p ==> q in before && after[q] == before[q]
  }

  lemma MemoryMoves(rows: Table, rows': Table, procs: map<Pid, Proc>, procs': map<Pid, Proc>, p: Pid)
    requires MemoryOk(rows, procs) && RowsGrow(rows, rows') && OthersStay(procs, procs', p)
    requires p in procs' ==> ActivityOk(rows', procs'[p].activity)
    ensures MemoryOk(rows', procs')
  {
    forall q | q in procs'
      ensures ActivityOk(rows', procs'[q].activity)
    {
      if q != p {
        ActivityMoves(rows, rows', procs[q].activity);
      }
    }
  }

  lemma ActivityMoves(rows: Table, rows': Table, a: Activity)
    requires ActivityOk(rows, a) && RowsGrow(rows, rows')
    ensures ActivityOk(rows', a)
  {}

  lemma SentRowsMove(rows: Table, rows': Table, sent: seq<OrderRequest>)
    requires SentFromRows(rows, sent) && RowsGrow(rows, rows')
    ensures SentFromRows(rows', sent)
  {}

  lemma RightsMove(procs: map<Pid, Proc>, procs': map<Pid, Proc>, sent: seq<OrderRequest>, p: Pid)
    requires SentOnce(procs, sent) && OthersStay(procs, procs', p)
    requires p in procs' && SendRight(procs'[p].activity).Some? ==>
               p in procs && SendRight(procs'[p].activity) == SendRight(procs[p].activity)
    ensures SentOnce(procs', sent)
  {}

  /** A step of `p` that sends nothing, claims nothing and only grows the rows. */
  lemma PlainStepKeepsInv(config: Config, s: State, t: State, p: Pid)
    requires Inv(config, s) && OthersStay(s.procs, t.procs, p)
    requires RowsFiled(config, t.rows) && RowsUnique(t.rows) && RowsGrow(s.rows, t.rows)
    requires t.sent == s.sent && t.orders == s.orders
    requires p in t.procs ==> ActivityOk(t.rows, t.procs[p].activity)
    requires p in t.procs && SendRight(t.procs[p].activity).Some? ==>
               p in s.procs && SendRight(t.procs[p].activity) == SendRight(s.procs[p].activity)
    ensures Inv(config, t)
  {
    MemoryMoves(s.rows, t.rows, s.procs, t.procs, p);
    SentRowsMove(s.rows, t.rows, s.sent);
    RightsMove(s.procs, t.procs, s.sent, p);
  }

  lemma ClaimKeepsInv(config: Config, s: State, p: Pid)
    requires Inv(config, s) && p in s.procs && s.procs[p].activity.Claiming?
    ensures Inv(config, ClaimStep(s, p))
  {
    var id := s.procs[p].activity.tradeId;
    var t := ClaimStep(s, p);
    if id in s.rows && Claimable(s.rows[id]) {
      ClaimWonKeepsInv(config, s, t, p, id);
    } else {
      ClaimLostKeepsInv(config, s, p);
    }
  }

  lemma ClaimLostKeepsInv(config: Config, s: State, p: Pid)
    requires Inv(config, s) && p in s.procs
    ensures Inv(config, Finish(s, p))
  {
    PlainStepKeepsInv(config, s, Finish(s, p), p);
  }

  lemma ClaimWonKeepsInv(config: Config, s: State, t: State, p: Pid, id: TradeId)
    requires Inv(config, s) && id in s.rows && Claimable(s.rows[id]) && t.rows == Claim(s.rows, id)
    requires OthersStay(s.procs, t.procs, p) && p in t.procs && t.procs[p].activity == Claimed(id)
    requires t.sent == s.sent && t.orders == s.orders
    ensures Inv(config, t)
  {
    ClaimGrowsRows(config, s.rows, id);
    MemoryMoves(s.rows, t.rows, s.procs, t.procs, p);
    SentRowsMove(s.rows, t.rows, s.sent);
    NewRight(s.rows, s.procs, t.procs, s.sent, p, id);
  }

  /** An unsubmitted row has been neither sent nor claimed, so the claim's winner is alone. */
  lemma NewRight(rows: Table, procs: map<Pid, Proc>, procs': map<Pid, Proc>, sent: seq<OrderRequest>, p: Pid,
                 id: TradeId)
    requires SentOnce(procs, sent) && SentFromRows(rows, sent) && MemoryOk(rows, procs) && OthersStay(procs, procs', p)
    requires id in rows && !rows[id].submitted && p in procs' && SendRight(procs'[p].activity) == Some(id)
    ensures SentOnce(procs', sent)
  {
    forall q | q in procs
      ensures SendRight(procs[q].activity) != Some(id)
    {
      assert ActivityOk(rows, procs[q].activity);
    }
    forall i | 0 <= i < |sent|
      ensures sent[i].tradeId != id
    {
      assert FromRow(rows, sent[i]);
    }
  }

  /** The call uses up the right, whatever comes of it. */
  lemma SentKeepsInv(config: Config, s: State, t: State, p: Pid, request: OrderRequest, landing: Option<OrderStatus>)
    requires Inv(config, s) && OthersStay(s.procs, t.procs, p) && t.rows == s.rows
    requires p in s.procs && SendRight(s.procs[p].activity) == Some(request.tradeId) && FromRow(s.rows, request)
    requires t.orders == Land(s.orders, request, landing) && t.sent == s.sent + [request]
    requires p in t.procs ==> ActivityOk(s.rows, t.procs[p].activity) && SendRight(t.procs[p].activity).None?
    ensures Inv(config, t)
  {
    MemoryMoves(s.rows, t.rows, s.procs, t.procs, p);
    RightSpent(s.procs, t.procs, s.sent, p, request);
    OrdersLand(s.orders, s.sent, request, landing);
  }

  lemma SendKeepsInv(config: Config, s: State, p: Pid, dryRun: bool, landing: Option<OrderStatus>, reply: Wire)
    requires Inv(config, s) && p in s.procs && s.procs[p].activity.Sending?
    ensures Inv(config, SendStep(s, p, dryRun, landing, reply))
  {
    var trade := s.procs[p].activity.trade;
    assert ActivityOk(s.rows, s.procs[p].activity);
    RequestFromCopy(s.rows, trade, dryRun);
    SentKeepsInv(config, s, SendStep(s, p, dryRun, landing, reply), p, RequestOf(trade, dryRun), landing);
  }

  lemma RequestFromCopy(rows: Table, t: Trade, dryRun: bool)
    requires CopyOf(rows, t) && t.submitted
    ensures FromRow(rows, RequestOf(t, dryRun))
  {}

  lemma RightSpent(procs: map<Pid, Proc>, procs': map<Pid, Proc>, sent: seq<OrderRequest>, p: Pid,
                   request: OrderRequest)
    requires SentOnce(procs, sent) && OthersStay(procs, procs', p)
    requires p in procs && SendRight(procs[p].activity) == Some(request.tradeId)
    requires p in procs' ==> SendRight(procs'[p].activity).None?
    ensures SentOnce(procs', sent + [request])
  {}

  lemma OrdersLand(orders: map<string, Order>, sent: seq<OrderRequest>, request: OrderRequest,
                   landing: Option<OrderStatus>)
    requires OrdersFromSent(orders, sent)
    ensures OrdersFromSent(Land(orders, request, landing), sent + [request])
  {
    assert (sent + [request])[|sent|] == request;
    assert forall r :: r in sent ==> r in sent + [request];
  }

  /** A commit of an edited copy, whatever the edit. */
  lemma CommitKeepsInv(config: Config, s: State, t: State, p: Pid, loaded: Trade, edited: Trade)
    requires Inv(config, s) && OthersStay(s.procs, t.procs, p) && t.sent == s.sent && t.orders == s.orders
    requires CopyOf(s.rows, loaded) && SameOrder(loaded, edited) && loaded.submitted == edited.submitted
    requires t.rows == Write(s.rows, loaded, edited)
    requires p in t.procs ==> t.procs[p].activity == Asking(edited) && !IsTerminal(edited.status)
    ensures Inv(config, t)
  {
    WriteGrowsRows(config, s.rows, loaded, edited);
    PlainStepKeepsInv(config, s, t, p);
  }

  lemma SettleKeepsInv(config: Config, s: State, p: Pid)
    requires Inv(config, s) && p in s.procs && s.procs[p].activity.Answered?
    requires s.procs[p].activity.trade.id in s.rows
    ensures Inv(config, SettleStep(s, p))
  {
    var a := s.procs[p].activity;
    SettledKeepsOrder(a.trade, a.placement);
    assert ActivityOk(s.rows, a);
    CommitKeepsInv(config, s, SettleStep(s, p), p, a.trade, Settled(a.trade, a.placement));
  }

  lemma ResolveKeepsInv(config: Config, s: State, p: Pid)
    requires Inv(config, s) && p in s.procs && s.procs[p].activity.Resolving?
    requires s.procs[p].activity.trade.id in s.rows
    ensures Inv(config, ResolveStep(s, p))
  {
    var a := s.procs[p].activity;
    assert ActivityOk(s.rows, a);
    CommitKeepsInv(config, s, ResolveStep(s, p), p, a.trade, Resolved(a.trade, a.found));
  }

  lemma InsertKeepsInv(config: Config, s: State, p: Pid, id: TradeId, createdAt: int)
    requires Inv(config, s) && p in s.procs && s.procs[p].activity.Received? && id !in s.rows
    requires Storable(s.procs[p].activity.payload)
    ensures Inv(config, InsertStep(config, s, p, id, createdAt))
  {
    var payload := s.procs[p].activity.payload;
    if !Clashes(s.rows, payload.signalId, config.clientOrderId(payload.signalId)) {
      InsertGrowsRows(config, s.rows, payload, id, createdAt);
    }
    PlainStepKeepsInv(config, s, InsertStep(config, s, p, id, createdAt), p);
  }

  lemma ReconcileKeepsInv(config: Config, s: State, p: Pid, id: TradeId)
    requires Inv(config, s) && p !in s.procs && id in s.rows
    ensures Inv(config, Next(config, s, StartReconcile(p, id)))
  {
    if !IsTerminal(s.rows[id].status) {
      PlainStepKeepsInv(config, s, Spawn(s, p, Asking(s.rows[id]), None), p);
    }
  }

  lemma BecomeKeepsInv(config: Config, s: State, p: Pid, activity: Activity)
    requires Inv(config, s) && p in s.procs && ActivityOk(s.rows, activity)
    requires SendRight(activity).None? || SendRight(activity) == SendRight(s.procs[p].activity)
    ensures Inv(config, Become(s, p, activity))
  {
    PlainStepKeepsInv(config, s, Become(s, p, activity), p);
  }

  lemma FinishKeepsInv(config: Config, s: State, p: Pid)
    requires Inv(config, s) && p in s.procs
    ensures Inv(config, Finish(s, p))
  {
    PlainStepKeepsInv(config, s, Finish(s, p), p);
  }

  lemma ReloadKeepsInv(config: Config, s: State, p: Pid)
    requires Inv(config, s) && p in s.procs && s.procs[p].activity.Claimed?
    ensures s.procs[p].activity.tradeId in s.rows && Inv(config, ReloadStep(s, p))
  {
    assert ActivityOk(s.rows, s.procs[p].activity);
    BecomeKeepsInv(config, s, p, Sending(s.rows[s.procs[p].activity.tradeId]));
  }

  lemma QueryKeepsInv(config: Config, s: State, p: Pid, reply: Wire)
    requires Inv(config, s) && p in s.procs && s.procs[p].activity.Asking?
    ensures Inv(config, QueryStep(s, p, reply))
  {
    var trade := s.procs[p].activity.trade;
    assert ActivityOk(s.rows, s.procs[p].activity);
    match GetOrder(reply)
    case Found(order) => BecomeKeepsInv(config, s, p, Resolving(trade, Some(order)));
    case NoSuchOrder => BecomeKeepsInv(config, s, p, Resolving(trade, None));
    case _ => FinishKeepsInv(config, s, p);
  }

  // ---------------------------------------------------------------- steps without a trade in hand

  /** The steps of coroutines that hold no trade: nothing durable or external changes, and the one that
      moves still holds none. */
  predicate HoldsNoTrade(step: Step) {
    step.Receive? || step.NameHolder? || step.HandOver? || step.GoInline? || step.ResumeSelect? ||
    step.ResumeSubmit? || step.Dequeue? || step.Abort?
  }

  predicate TradeInHand(a: Activity) { a.Claimed? || a.Sending? || a.Answered? || a.Asking? || a.Resolving? }

  lemma NoTradeFrame(config: Config, s: State, step: Step)
    requires Enabled(config, s, step) && HoldsNoTrade(step)
    ensures var t := Next(config, s, step);
      && t.rows == s.rows && t.orders == s.orders && t.sent == s.sent
      && (step.NameHolder? || t.answers == s.answers)
      && OthersStay(s.procs, t.procs, step.p)
      && (step.p in t.procs ==> !TradeInHand(t.procs[step.p].activity) && !t.procs[step.p].activity.Created?
                                && !t.procs[step.p].activity.Clashed?
                                && (t.procs[step.p].activity.Received? ==> step.Receive?))
  {
    if step.ResumeSubmit? {
      ResumeFrame(s, config.capacity, step.p);
    }
  }

  lemma ResumeFrame(s: State, capacity: nat, p: Pid)
    requires p in s.procs && s.procs[p].activity.Resuming?
    ensures var t := ResumeStep(s, capacity, p);
      t.rows == s.rows && t.orders == s.orders && t.sent == s.sent && t.answers == s.answers && t.procs == s.procs - {p}
  {
    PutAllFrame(Finish(s, p), capacity, s.procs[p].activity.tradeIds);
  }

  // ---------------------------------------------------------------- steps with a trade in hand

  /** Nobody is answered, no row is added, rows only grow, and one coroutine moves, keeping its trade. */
  predicate EditsOnly(config: Config, s: State, t: State, p: Pid) {
    && RowsFiled(config, t.rows) && RowsUnique(t.rows) && RowsGrow(s.rows, t.rows) && t.rows.Keys == s.rows.Keys
    && t.answers == s.answers && OthersStay(s.procs, t.procs, p)
    && (p in t.procs ==> TradeInHand(t.procs[p].activity))
  }

  lemma ClaimFrame(config: Config, s: State, p: Pid)
    requires RowsFiled(config, s.rows) && RowsUnique(s.rows) && p in s.procs && s.procs[p].activity.Claiming?
    ensures EditsOnly(config, s, ClaimStep(s, p), p)
  {
    var t := ClaimStep(s, p);
    ClaimGrowsRows(config, s.rows, s.procs[p].activity.tradeId);
    assert t.rows == Claim(s.rows, s.procs[p].activity.tradeId);
  }

  lemma SendFrame(config: Config, s: State, p: Pid, dryRun: bool, landing: Option<OrderStatus>, reply: Wire)
    requires RowsFiled(config, s.rows) && RowsUnique(s.rows) && p in s.procs && s.procs[p].activity.Sending?
    ensures EditsOnly(config, s, SendStep(s, p, dryRun, landing, reply), p)
  {
    SameRowsFrame(config, s, SendStep(s, p, dryRun, landing, reply), p);
  }

  lemma QueryFrame(config: Config, s: State, p: Pid, reply: Wire)
    requires RowsFiled(config, s.rows) && RowsUnique(s.rows) && p in s.procs && s.procs[p].activity.Asking?
    ensures EditsOnly(config, s, QueryStep(s, p, reply), p)
  {
    SameRowsFrame(config, s, QueryStep(s, p, reply), p);
  }

  lemma SameRowsFrame(config: Config, s: State, t: State, p: Pid)
    requires RowsFiled(config, s.rows) && RowsUnique(s.rows)
    requires t.rows == s.rows && t.answers == s.answers && OthersStay(s.procs, t.procs, p)
    requires p in t.procs ==> TradeInHand(t.procs[p].activity)
    ensures EditsOnly(config, s, t, p)
  {}

  lemma SettleFrame(config: Config, s: State, p: Pid)
    requires RowsFiled(config, s.rows) && RowsUnique(s.rows) && p in s.procs && s.procs[p].activity.Answered?
    requires s.procs[p].activity.trade.id in s.rows
    ensures EditsOnly(config, s, SettleStep(s, p), p)
  {
    var a := s.procs[p].activity;
    SettledKeepsOrder(a.trade, a.placement);
    WriteGrowsRows(config, s.rows, a.trade, Settled(a.trade, a.placement));
  }

  lemma ResolveFrame(config: Config, s: State, p: Pid)
    requires RowsFiled(config, s.rows) && RowsUnique(s.rows) && p in s.procs && s.procs[p].activity.Resolving?
    requires s.procs[p].activity.trade.id in s.rows
    ensures EditsOnly(config, s, ResolveStep(s, p), p)
  {
    var a := s.procs[p].activity;
    WriteGrowsRows(config, s.rows, a.trade, Resolved(a.trade, a.found));
  }

  lemma TradeFrame(config: Config, s: State, step: Step)
    requires RowsFiled(config, s.rows) && RowsUnique(s.rows) && Enabled(config, s, step)
    requires !HoldsNoTrade(step) && !step.Insert? && !step.Crash? && !step.ExchangeMove?
    ensures EditsOnly(config, s, Next(config, s, step), step.p)
  {
    match step
    case ClaimRow(p) => ClaimFrame(config, s, p);
    case Reload(_) =>
    case Send(p, dryRun, landing, reply) => SendFrame(config, s, p, dryRun, landing, reply);
    case Settle(p) => SettleFrame(config, s, p);
    case StartReconcile(_, _) =>
    case Query(p, reply) => QueryFrame(config, s, p, reply);
    case Resolve(p) => ResolveFrame(config, s, p);
  }

  lemma StepKeepsInv(config: Config, s: State, step: Step)
    requires Inv(config, s) && Enabled(config, s, step)
    ensures Inv(config, Next(config, s, step))
  {
    if step.Insert? {
      InsertKeepsInv(config, s, step.p, step.id, step.createdAt);
    } else if step.ClaimRow? {
      ClaimKeepsInv(config, s, step.p);
    } else if step.Reload? {
      ReloadKeepsInv(config, s, step.p);
    } else if step.Send? {
      SendKeepsInv(config, s, step.p, step.dryRun, step.landing, step.reply);
    } else if step.Settle? {
      SettleKeepsInv(config, s, step.p);
    } else if step.StartReconcile? {
      ReconcileKeepsInv(config, s, step.p, step.id);
    } else if step.Query? {
      QueryKeepsInv(config, s, step.p, step.reply);
    } else if step.Resolve? {
      ResolveKeepsInv(config, s, step.p);
    } else if HoldsNoTrade(step) {
      NoTradeKeepsInv(config, s, step);
    }
  }

  lemma NoTradeKeepsInv(config: Config, s: State, step: Step)
    requires Inv(config, s) && Enabled(config, s, step) && HoldsNoTrade(step)
    ensures Inv(config, Next(config, s, step))
  {
    NoTradeFrame(config, s, step);
    PlainStepKeepsInv(config, s, Next(config, s, step), step.p);
  }

  lemma {:induction false} RunKeepsInv(config: Config, s: State, steps: seq<Step>)
    requires Inv(config, s) && Run(config, s, steps)
    ensures Inv(config, After(config, s, steps))
    decreases |steps|
  {
    if steps != [] {
      RunKeepsInv(config, s, steps[..|steps| - 1]);
      StepKeepsInv(config, After(config, s, steps[..|steps| - 1]), steps[|steps| - 1]);
    }
  }

  // ---------------------------------------------------------------- the promises

  /** One order per signal: however requests race, entries repeat, commits fail, resumes repeat and
      crashes fall, `place_market_order` is called at most once per row, per client order id and per
      signal. */
  lemma AtMostOneOrderPerSignal(config: Config, steps: seq<Step>)
    requires Run(config, Start, steps)
    ensures var s := After(config, Start, steps);
      forall i, j :: 0 <= i < j < |s.sent| ==>
        && s.sent[i].tradeId in s.rows && s.sent[j].tradeId in s.rows
        && s.sent[i].tradeId != s.sent[j].tradeId
        && s.sent[i].clientOrderId != s.sent[j].clientOrderId
        && s.rows[s.sent[i].tradeId].signalId != s.rows[s.sent[j].tradeId].signalId
  {
    RunKeepsInv(config, Start, steps);
    var s := After(config, Start, steps);
    forall i | 0 <= i < |s.sent|
      ensures FromRow(s.rows, s.sent[i])
    {}
  }

  lemma RowsOnlyGrow(config: Config, s: State, step: Step)
    requires RowsFiled(config, s.rows) && RowsUnique(s.rows) && Enabled(config, s, step) && !step.Insert?
    ensures var t := Next(config, s, step); RowsGrow(s.rows, t.rows) && t.rows.Keys == s.rows.Keys
  {
    if HoldsNoTrade(step) {
      NoTradeFrame(config, s, step);
    } else if !step.Crash? && !step.ExchangeMove? {
      TradeFrame(config, s, step);
    }
  }

  lemma {:induction false} RunGrowsRows(config: Config, s: State, steps: seq<Step>)
    requires Inv(config, s) && Run(config, s, steps)
    ensures RowsGrow(s.rows, After(config, s, steps).rows)
    decreases |steps|
  {
    if steps != [] {
      var earlier, last := steps[..|steps| - 1], steps[|steps| - 1];
      RunGrowsRows(config, s, earlier);
      RunKeepsInv(config, s, earlier);
      if last.Insert? {
        InsertOnlyAdds(config, After(config, s, earlier), last);
      } else {
        RowsOnlyGrow(config, After(config, s, earlier), last);
      }
    }
  }

  lemma InsertOnlyAdds(config: Config, s: State, step: Step)
    requires RowsFiled(config, s.rows) && RowsUnique(s.rows) && Enabled(config, s, step) && step.Insert?
    ensures RowsGrow(s.rows, Next(config, s, step).rows)
  {}

  /** The two UNIQUE indexes make client order ids injective, whatever the hash does: in every run, distinct
      rows have distinct signals and distinct client order ids, and a row never changes the order it
      stands for. */
  lemma ClientOrderIdsAreInjective(config: Config, before: seq<Step>, more: seq<Step>)
    requires Run(config, Start, before) && Run(config, After(config, Start, before), more)
    ensures var s := After(config, Start, before); var t := After(config, s, more);
      && (forall i, j :: i in t.rows && j in t.rows && i != j ==>
            t.rows[i].signalId != t.rows[j].signalId && t.rows[i].clientOrderId != t.rows[j].clientOrderId)
      && (forall id :: id in t.rows ==> t.rows[id].clientOrderId == config.clientOrderId(t.rows[id].signalId))
      && (forall id :: id in s.rows ==> id in t.rows && SameOrder(s.rows[id], t.rows[id]))
  {
    RunKeepsInv(config, Start, before);
    RunKeepsInv(config, After(config, Start, before), more);
    RunGrowsRows(config, After(config, Start, before), more);
  }

  /** Intent is durable before the irreversible call: every order at the exchange has exactly one
      committed row, with its client order id, symbol, side and quantity and with `submitted_at` set. */
  lemma EveryOrderIsWrittenAhead(config: Config, steps: seq<Step>, cid: string)
    requires Run(config, Start, steps) && cid in After(config, Start, steps).orders
    ensures var s := After(config, Start, steps);
      var request := s.orders[cid].request;
      && request.tradeId in s.rows
      && var row := s.rows[request.tradeId];
         && row.submitted && row.clientOrderId == cid == request.clientOrderId
         && row.symbol == request.symbol && row.side == request.side && row.quantity == request.quantity
         && forall id :: id in s.rows && s.rows[id].clientOrderId == cid ==> id == request.tradeId
  {
    RunKeepsInv(config, Start, steps);
    var s := After(config, Start, steps);
    assert FromRow(s.rows, s.orders[cid].request);
  }
}
