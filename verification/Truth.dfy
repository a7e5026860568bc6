/** A truthful exchange, and how runs are put together. */
module Truth {
  import opened Wrappers
  import opened Decimals
  import opened Models
  import opened Webhook
  import opened BinanceClient
  import opened Trading
  import opened Protocol
  import opened Safety

  // ---------------------------------------------------------------- a truthful exchange

  function CurrentStatus(orders: map<string, Order>, cid: string): Option<OrderStatus> {
    if cid in orders then Some(orders[cid].status) else None
  }

  /** The exchange keeps its side of the API in this step. */
  predicate Truthful(s: State, step: Step) {
    match step
    case Send(p, dryRun, landing, reply) =>
      HonestPlacement(dryRun, landing, reply) && landing != Some(DRY_RUN_VALIDATED)
    case Query(p, reply) =>
      p in s.procs && s.procs[p].activity.Asking? ==>
        HonestLookup(CurrentStatus(s.orders, s.procs[p].activity.trade.clientOrderId), reply)
    case ExchangeMove(cid, status) =>
      status != DRY_RUN_VALIDATED && (cid in s.orders ==> !IsTerminal(MapStatus(s.orders[cid].status)))
    case _ => true
  }

  predicate TruthfulRun(config: Config, s: State, steps: seq<Step>)
    requires Run(config, s, steps)
    decreases |steps|
  {
    steps == [] ||
    (TruthfulRun(config, s, steps[..|steps| - 1]) &&
     Truthful(After(config, s, steps[..|steps| - 1]), steps[|steps| - 1]))
  }

  /** Only the answers to queries need to be truthful. */
  predicate TruthfulLookups(config: Config, s: State, steps: seq<Step>)
    requires Run(config, s, steps)
    decreases |steps|
  {
    steps == [] ||
    (TruthfulLookups(config, s, steps[..|steps| - 1]) &&
     (steps[|steps| - 1].Query? ==> Truthful(After(config, s, steps[..|steps| - 1]), steps[|steps| - 1])))
  }

  lemma {:induction false} TruthfulRunHasTruthfulLookups(config: Config, s: State, steps: seq<Step>)
    requires Run(config, s, steps) && TruthfulRun(config, s, steps)
    ensures TruthfulLookups(config, s, steps)
    decreases |steps|
  {
    if steps != [] {
      TruthfulRunHasTruthfulLookups(config, s, steps[..|steps| - 1]);
    }
  }

  /** An order that is over stays as it is. */
  predicate Legal(orders: map<string, Order>, m: Move) {
    && m.clientOrderId in orders && !IsTerminal(MapStatus(orders[m.clientOrderId].status))
    && m.status != DRY_RUN_VALIDATED
  }

  predicate LegalMoves(orders: map<string, Order>, moves: seq<Move>) {
    moves == [] ||
    (LegalMoves(orders, moves[..|moves| - 1]) && Legal(Moved(orders, moves[..|moves| - 1]), moves[|moves| - 1]))
  }

  // ---------------------------------------------------------------- what was sent

  predicate WasSent(sent: seq<OrderRequest>, id: TradeId) {
    exists i :: 0 <= i < |sent| && sent[i].tradeId == id
  }

  /** An order at the exchange means its row was sent. */
  lemma OrderWasSent(config: Config, s: State, id: TradeId)
    requires Inv(config, s) && id in s.rows && s.rows[id].clientOrderId in s.orders
    ensures WasSent(s.sent, id) && s.rows[id].submitted
  {
    var request := s.orders[s.rows[id].clientOrderId].request;
    var i :| 0 <= i < |s.sent| && s.sent[i] == request;
    assert FromRow(s.rows, s.sent[i]);
    assert request.tradeId == id;
  }

  lemma UnsentHasNoOrder(config: Config, s: State, p: Pid)
    requires Inv(config, s) && p in s.procs && SendRight(s.procs[p].activity).Some?
    ensures var id := SendRight(s.procs[p].activity).value;
      id in s.rows && !WasSent(s.sent, id) && s.rows[id].clientOrderId !in s.orders
  {
    var id := SendRight(s.procs[p].activity).value;
    assert ActivityOk(s.rows, s.procs[p].activity);
    if s.rows[id].clientOrderId in s.orders {
      OrderWasSent(config, s, id);
    }
  }

  lemma WriteStatus(rows: Table, loaded: Trade, edited: Trade)
    requires loaded.id in rows
    ensures var after := Write(rows, loaded, edited);
      && after.Keys == rows.Keys
      && (forall id :: id in rows && id != loaded.id ==> after[id] == rows[id])
      && (after[loaded.id].status == rows[loaded.id].status || after[loaded.id].status == edited.status)
      && after[loaded.id].clientOrderId == rows[loaded.id].clientOrderId
  {}

  // ---------------------------------------------------------------- longer runs

  lemma OneMoreStep(config: Config, s: State, steps: seq<Step>, step: Step)
    requires Run(config, s, steps) && Enabled(config, After(config, s, steps), step)
    ensures Run(config, s, steps + [step])
    ensures After(config, s, steps + [step]) == Next(config, After(config, s, steps), step)
    ensures TruthfulRun(config, s, steps) && Truthful(After(config, s, steps), step) ==>
              TruthfulRun(config, s, steps + [step])
  {
    var longer := steps + [step];
    assert longer[..|longer| - 1] == steps;
  }

  lemma TwoMoreSteps(config: Config, s: State, steps: seq<Step>, first: Step, second: Step) returns (more: seq<Step>)
    requires Run(config, s, steps) && TruthfulRun(config, s, steps)
    requires var t := After(config, s, steps);
      && Enabled(config, t, first) && Truthful(t, first)
      && var t' := Next(config, t, first); Enabled(config, t', second) && Truthful(t', second)
    ensures more == steps + [first] + [second] && Run(config, s, more) && TruthfulRun(config, s, more)
    ensures After(config, s, more) == Next(config, Next(config, After(config, s, steps), first), second)
  {
    OneMoreStep(config, s, steps, first);
    OneMoreStep(config, s, steps + [first], second);
    more := steps + [first] + [second];
  }

  lemma {:induction false} RunsCompose(config: Config, s: State, first: seq<Step>, second: seq<Step>)
    requires Run(config, s, first) && TruthfulRun(config, s, first)
    requires Run(config, After(config, s, first), second) && TruthfulRun(config, After(config, s, first), second)
    ensures Run(config, s, first + second) && TruthfulRun(config, s, first + second)
    ensures After(config, s, first + second) == After(config, After(config, s, first), second)
    decreases |second|
  {
    if second == [] {
      assert first + second == first;
    } else {
      var shorter, last := second[..|second| - 1], second[|second| - 1];
      RunsCompose(config, s, first, shorter);
      assert second == shorter + [last];
      OneMoreStep(config, After(config, s, first), shorter, last);
      OneMoreStep(config, s, first + shorter, last);
      assert first + second == first + shorter + [last];
    }
  }

  lemma SignalCreatesTrade(config: Config, payload: Payload) returns (steps: seq<Step>)
    requires Accepted(config, payload) && StoreNumeric(payload.quantity).Some?
    ensures Run(config, Start, steps) && TruthfulRun(config, Start, steps)
    ensures var s := After(config, Start, steps);
      && s.procs == map[0 := Proc(Created(1), None)] && s.orders == map[]
      && 1 in s.rows && s.rows[1].id == 1 && Claimable(s.rows[1]) && s.rows[1].signalId == payload.signalId
  {
    OneMoreStep(config, Start, [], Receive(0, payload));
    var s1 := Spawn(Start, 0, Received(payload), None);
    OneMoreStep(config, Start, [Receive(0, payload)], Insert(0, 1, 0));
    steps := [Receive(0, payload)] + [Insert(0, 1, 0)];
    assert !Clashes(s1.rows, payload.signalId, config.clientOrderId(payload.signalId));
  }

  const NOT_FOUND :=
    Response(400, Object(Missing, NO_STATUS, Finite(false, 0, 0), Finite(false, 0, 0), ORDER_DOES_NOT_EXIST))

  lemma AskedBeforeSending(config: Config, s: State, q: Pid, id: TradeId)
    requires q !in s.procs && id in s.rows && s.rows[id].status.Pending? && s.rows[id].clientOrderId !in s.orders
    ensures var s1 := Spawn(s, q, Asking(s.rows[id]), None);
      && Next(config, s, StartReconcile(q, id)) == s1
      && Enabled(config, s1, Query(q, NOT_FOUND)) && Truthful(s1, Query(q, NOT_FOUND))
      && QueryStep(s1, q, NOT_FOUND) == s.(procs := s.procs[q := Proc(Resolving(s.rows[id], None), None)])
  {}
}
