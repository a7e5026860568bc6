/** The trade-execution protocol as a state machine: webhook requests, executor workers, resumes and
    reconciliations run concurrently, one step per database statement or exchange call, over the
    durable table, the exchange, and the executor's in-memory queue. */
module Protocol {
  import opened Wrappers
  import opened Decimals
  import opened Models
  import opened Webhook
  import opened BinanceClient
  import opened Trading

  type Pid = nat

  /** A call of `place_market_order`; the quantity goes out as `FormatDecimal(quantity)`. */
  datatype OrderRequest = OrderRequest(
    tradeId: TradeId, clientOrderId: string, symbol: string, side: OrderSide, quantity: Decimal, dryRun: bool)

  /** An order at the exchange: the request that created it and its current status there. */
  datatype Order = Order(request: OrderRequest, status: OrderStatus)

  /** One accepted `put_nowait`, numbered since the executor was created. */
  datatype Entry = Entry(ticket: nat, tradeId: TradeId)

  /** Where a coroutine stands between two awaits. In-memory copies of a row are carried along. */
  datatype Activity =
    | Received(payload: Payload)                                  // validated, about to INSERT
    | Clashed(payload: Payload)                                   // IntegrityError, about to look up the holder
    | Created(tradeId: TradeId)                                   // commit #1 done
    | Resuming(tradeIds: seq<TradeId>)                            // resume_pending has its SELECT
    | Claiming(tradeId: TradeId)                                  // about to run the claiming UPDATE
    | Claimed(tradeId: TradeId)                                   // the UPDATE changed one row, about to re-read it
    | Sending(trade: Trade)                                       // about to call place_market_order
    | Answered(trade: Trade, placement: Placement)                // outcome in hand, commit pending
    | Asking(trade: Trade)                                        // reconcile_trade, about to query
    | Resolving(trade: Trade, found: Option<OrderResult>)         // answer in hand, commit pending

  /** A running coroutine; a worker also holds the queue entry it is executing. */
  datatype Proc = Proc(activity: Activity, ticket: Option<nat>)

  datatype Answer =
    | Accepted202(signalId: string, tradeId: TradeId)
    | Duplicate409(signalId: string, existing: Option<TradeId>)

  datatype State = State(
    rows: Table,                       // durable
    orders: map<string, Order>,        // the exchange, by client order id
    procs: map<Pid, Proc>,             // everything below is lost in a crash ...
    queue: seq<Entry>,
    issued: nat,                       // entries ever accepted by this executor
    retired: set<nat>,                 // tickets whose task_done has run
    unfinished: nat,                   // asyncio.Queue's counter, what join() waits on
    sent: seq<OrderRequest>,           // ... except these two histories
    answers: seq<Answer>)

  const Start := State(map[], map[], map[], [], 0, {}, 0, [], [])

  datatype Step =
    | Receive(p: Pid, payload: Payload)
    | Insert(p: Pid, id: TradeId, createdAt: int)
    | NameHolder(p: Pid, holder: Option<TradeId>)
    | HandOver(p: Pid)
    | GoInline(p: Pid)
    | ResumeSelect(p: Pid, ids: seq<TradeId>)
    | ResumeSubmit(p: Pid)
    | Dequeue(p: Pid)
    | ClaimRow(p: Pid)
    | Reload(p: Pid)
    | Send(p: Pid, dryRun: bool, landing: Option<OrderStatus>, reply: Wire)
    | Settle(p: Pid)
    | StartReconcile(p: Pid, id: TradeId)
    | Query(p: Pid, reply: Wire)
    | Resolve(p: Pid)
    | Abort(p: Pid)                                   // any exception, failed commit or cancellation
    | Crash                                           // the process is killed
    | ExchangeMove(clientOrderId: string, status: OrderStatus)

  // ---------------------------------------------------------------- pieces of a step

  function RequestOf(t: Trade, dryRun: bool): OrderRequest {
    OrderRequest(t.id, t.clientOrderId, t.symbol, t.side, t.quantity, dryRun)
  }

  function Land(orders: map<string, Order>, request: OrderRequest, landing: Option<OrderStatus>): map<string, Order> {
    match landing
    case None => orders
    case Some(status) => orders[request.clientOrderId := Order(request, status)]
  }

  /** The orders after some moves; moving an order that is not there changes nothing. */
  function Moved(orders: map<string, Order>, moves: seq<Move>): map<string, Order> {
    if moves == [] then orders
    else
      var before, m := Moved(orders, moves[..|moves| - 1]), moves[|moves| - 1];
      if m.clientOrderId !in before then before
      else before[m.clientOrderId := before[m.clientOrderId].(status := m.status)]
  }

  function Become(s: State, p: Pid, activity: Activity): State
    requires p in s.procs
  {
    s.(procs := s.procs[p := s.procs[p].(activity := activity)])
  }

  /** The coroutine ends; a worker runs `task_done`. */
  function Finish(s: State, p: Pid): State
    requires p in s.procs
  {
    var rest := s.(procs := s.procs - {p});
    match s.procs[p].ticket
    case None => rest
    case Some(n) => rest.(retired := s.retired + {n}, unfinished := if s.unfinished > 0 then s.unfinished - 1 else 0)
  }

  /** `submit`: `put_nowait`, refused when the queue is full. */
  function Put(s: State, capacity: nat, id: TradeId): State {
    if |s.queue| >= capacity then s
    else s.(queue := s.queue + [Entry(s.issued, id)], issued := s.issued + 1, unfinished := s.unfinished + 1)
  }

  function PutAll(s: State, capacity: nat, ids: seq<TradeId>): State
    decreases |ids|
  {
    if ids == [] then s else PutAll(Put(s, capacity, ids[0]), capacity, ids[1..])
  }

  // ---------------------------------------------------------------- which steps are possible

  predicate Storable(payload: Payload) {
    payload.quantity.Finite? && StoreNumeric(payload.quantity).Some?
  }

  predicate Enabled(config: Config, s: State, step: Step) {
    match step
    case Receive(p, payload) => p !in s.procs && Accepted(config, payload)
    case Insert(p, id, _) => p in s.procs && s.procs[p].activity.Received? && id !in s.rows
                             && Storable(s.procs[p].activity.payload)
    case NameHolder(p, holder) => p in s.procs && s.procs[p].activity.Clashed?
                                  && NamesHolder(s.rows, s.procs[p].activity.payload.signalId, holder)
    case HandOver(p) => p in s.procs && s.procs[p].activity.Created?
    case GoInline(p) => p in s.procs && s.procs[p].activity.Created?
    case ResumeSelect(p, ids) => p !in s.procs && (forall i :: 0 <= i < |ids| ==>
                                   ids[i] in s.rows && Claimable(s.rows[ids[i]]))
    case ResumeSubmit(p) => p in s.procs && s.procs[p].activity.Resuming?
    case Dequeue(p) => p !in s.procs && s.queue != []
    case ClaimRow(p) => p in s.procs && s.procs[p].activity.Claiming?
    case Reload(p) => p in s.procs && s.procs[p].activity.Claimed? && s.procs[p].activity.tradeId in s.rows
    case Send(p, _, _, _) => p in s.procs && s.procs[p].activity.Sending?
    case Settle(p) => p in s.procs && s.procs[p].activity.Answered? && s.procs[p].activity.trade.id in s.rows
    case StartReconcile(p, id) => p !in s.procs && id in s.rows
    case Query(p, _) => p in s.procs && s.procs[p].activity.Asking?
    case Resolve(p) => p in s.procs && s.procs[p].activity.Resolving? && s.procs[p].activity.trade.id in s.rows
    case Abort(p) => p in s.procs
    case Crash => true
    case ExchangeMove(cid, _) => cid in s.orders
  }

  function Next(config: Config, s: State, step: Step): State
    requires Enabled(config, s, step)
  {
    match step
    case Receive(p, payload) => Spawn(s, p, Received(payload), None)
    case Insert(p, id, createdAt) => InsertStep(config, s, p, id, createdAt)
    case NameHolder(p, holder) => NameStep(s, p, holder)
    case HandOver(p) => HandOverStep(s, config.capacity, p)
    case GoInline(p) => InlineStep(s, p)
    case ResumeSelect(p, ids) => Spawn(s, p, Resuming(ids), None)
    case ResumeSubmit(p) => ResumeStep(s, config.capacity, p)
    case Dequeue(p) => DequeueStep(s, p)
    case ClaimRow(p) => ClaimStep(s, p)
    case Reload(p) => ReloadStep(s, p)
    case Send(p, dryRun, landing, reply) => SendStep(s, p, dryRun, landing, reply)
    case Settle(p) => SettleStep(s, p)
    case StartReconcile(p, id) => if IsTerminal(s.rows[id].status) then s else Spawn(s, p, Asking(s.rows[id]), None)
    case Query(p, reply) => QueryStep(s, p, reply)
    case Resolve(p) => ResolveStep(s, p)
    case Abort(p) => Finish(s, p)
    case Crash => s.(procs := map[], queue := [], issued := 0, retired := {}, unfinished := 0)
    case ExchangeMove(cid, status) => MoveStep(s, cid, status)
  }

  function Spawn(s: State, p: Pid, activity: Activity, ticket: Option<nat>): State {
    s.(procs := s.procs[p := Proc(activity, ticket)])
  }

  function NameStep(s: State, p: Pid, holder: Option<TradeId>): State
    requires p in s.procs && s.procs[p].activity.Clashed?
  {
    Finish(s, p).(answers := s.answers + [Duplicate409(s.procs[p].activity.payload.signalId, holder)])
  }

  function HandOverStep(s: State, capacity: nat, p: Pid): State
    requires p in s.procs && s.procs[p].activity.Created?
  {
    Put(Finish(s, p), capacity, s.procs[p].activity.tradeId)
  }

  function InlineStep(s: State, p: Pid): State
    requires p in s.procs && s.procs[p].activity.Created?
  {
    Become(s, p, Claiming(s.procs[p].activity.tradeId))
  }

  function ResumeStep(s: State, capacity: nat, p: Pid): State
    requires p in s.procs && s.procs[p].activity.Resuming?
  {
    PutAll(Finish(s, p), capacity, s.procs[p].activity.tradeIds)
  }

  function DequeueStep(s: State, p: Pid): State
    requires s.queue != []
  {
    Spawn(s, p, Claiming(s.queue[0].tradeId), Some(s.queue[0].ticket)).(queue := s.queue[1..])
  }

  function ReloadStep(s: State, p: Pid): State
    requires p in s.procs && s.procs[p].activity.Claimed? && s.procs[p].activity.tradeId in s.rows
  {
    Become(s, p, Sending(s.rows[s.procs[p].activity.tradeId]))
  }

  function ResolveStep(s: State, p: Pid): State
    requires p in s.procs && s.procs[p].activity.Resolving? && s.procs[p].activity.trade.id in s.rows
  {
    var a := s.procs[p].activity;
    Finish(s, p).(rows := Write(s.rows, a.trade, Resolved(a.trade, a.found)))
  }

  function MoveStep(s: State, cid: string, status: OrderStatus): State
    requires cid in s.orders
  {
    s.(orders := s.orders[cid := s.orders[cid].(status := status)])
  }

  function InsertStep(config: Config, s: State, p: Pid, id: TradeId, createdAt: int): State
    requires p in s.procs && s.procs[p].activity.Received?
    requires Storable(s.procs[p].activity.payload)
  {
    var payload := s.procs[p].activity.payload;
    if Clashes(s.rows, payload.signalId, config.clientOrderId(payload.signalId))
    then Become(s, p, Clashed(payload))
    else Become(s, p, Created(id)).(rows := s.rows[id := NewTrade(config, payload, id, createdAt)],
                                    answers := s.answers + [Accepted202(payload.signalId, id)])
  }

  function ClaimStep(s: State, p: Pid): State
    requires p in s.procs && s.procs[p].activity.Claiming?
  {
    var id := s.procs[p].activity.tradeId;
    if id in s.rows && Claimable(s.rows[id]) then Become(s, p, Claimed(id)).(rows := Claim(s.rows, id))
    else Finish(s, p)
  }

  function SendStep(s: State, p: Pid, dryRun: bool, landing: Option<OrderStatus>, reply: Wire): State
    requires p in s.procs && s.procs[p].activity.Sending?
  {
    var trade := s.procs[p].activity.trade;
    var request := RequestOf(trade, dryRun);
    var placement := PlaceMarketOrder(dryRun, reply);
    var after := if placement.Broke? then Finish(s, p) else Become(s, p, Answered(trade, placement));
    after.(orders := Land(s.orders, request, landing), sent := s.sent + [request])
  }

  function SettleStep(s: State, p: Pid): State
    requires p in s.procs && s.procs[p].activity.Answered? && s.procs[p].activity.trade.id in s.rows
  {
    var a := s.procs[p].activity;
    var settled := Settled(a.trade, a.placement);
    var after := if IsUncertain(a.placement) then Become(s, p, Asking(settled)) else Finish(s, p);
    after.(rows := Write(s.rows, a.trade, settled))
  }

  function QueryStep(s: State, p: Pid, reply: Wire): State
    requires p in s.procs && s.procs[p].activity.Asking?
  {
    var trade := s.procs[p].activity.trade;
    match GetOrder(reply)
    case Found(order) => Become(s, p, Resolving(trade, Some(order)))
    case NoSuchOrder => Become(s, p, Resolving(trade, None))
    case _ => Finish(s, p)
  }

  // ---------------------------------------------------------------- runs

  /** The steps can be taken one after the other from `s`. */
  predicate Run(config: Config, s: State, steps: seq<Step>)
    decreases |steps|, 0
  {
    steps == [] ||
    (Run(config, s, steps[..|steps| - 1]) &&
     Enabled(config, After(config, s, steps[..|steps| - 1]), steps[|steps| - 1]))
  }

  function After(config: Config, s: State, steps: seq<Step>): State
    requires Run(config, s, steps)
    decreases |steps|, 1
  {
    if steps == [] then s else Next(config, After(config, s, steps[..|steps| - 1]), steps[|steps| - 1])
  }
}
