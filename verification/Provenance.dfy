/** End to end: every order at the exchange is, to the last digit, what some accepted signal asked for. */
module Provenance {
  import opened Wrappers
  import opened Decimals
  import opened Numbers
  import opened Models
  import opened Webhook
  import opened Trading
  import opened Protocol
  import opened Queries
  import opened Execution
  import opened Safety

  /** The row records this accepted payload. */
  predicate Records(config: Config, row: Trade, payload: Payload) {
    && Accepted(config, payload) && row.userId == config.ownerId
    && row.signalId == payload.signalId && row.symbol == payload.symbol && row.side == payload.action
    && StoreNumeric(payload.quantity) == Some(row.quantity)
  }

  ghost predicate Signalled(config: Config, row: Trade) {
    exists payload :: Records(config, row, payload)
  }

  ghost predicate AllSignalled(config: Config, rows: Table) {
    forall id :: id in rows ==> Signalled(config, rows[id])
  }

  predicate PayloadsAccepted(config: Config, procs: map<Pid, Proc>) {
    forall p :: p in procs && procs[p].activity.Received? ==> Accepted(config, procs[p].activity.payload)
  }

  lemma SignalledGrows(config: Config, rows: Table, rows': Table)
    requires AllSignalled(config, rows) && RowsGrow(rows, rows') && rows'.Keys == rows.Keys
    ensures AllSignalled(config, rows')
  {
    forall id | id in rows'
      ensures Signalled(config, rows'[id])
    {
      assert Signalled(config, rows[id]);
      var payload :| Records(config, rows[id], payload);
      assert Records(config, rows'[id], payload);
    }
  }

  lemma InsertKeepsSignalled(config: Config, s: State, p: Pid, id: TradeId, createdAt: int)
    requires AllSignalled(config, s.rows) && PayloadsAccepted(config, s.procs)
    requires p in s.procs && s.procs[p].activity.Received? && id !in s.rows && Storable(s.procs[p].activity.payload)
    ensures var t := InsertStep(config, s, p, id, createdAt);
      AllSignalled(config, t.rows) && PayloadsAccepted(config, t.procs)
  {
    var payload := s.procs[p].activity.payload;
    assert Records(config, NewTrade(config, payload, id, createdAt), payload);
  }

  lemma StepKeepsSignalled(config: Config, s: State, step: Step)
    requires RowsFiled(config, s.rows) && RowsUnique(s.rows) && Enabled(config, s, step)
    requires AllSignalled(config, s.rows) && PayloadsAccepted(config, s.procs)
    ensures var t := Next(config, s, step);
      AllSignalled(config, t.rows) && PayloadsAccepted(config, t.procs)
  {
    if step.Insert? {
      InsertKeepsSignalled(config, s, step.p, step.id, step.createdAt);
    } else if HoldsNoTrade(step) {
      NoTradeFrame(config, s, step);
      if !step.Receive? {
        OthersKeepAccepted(config, s.procs, Next(config, s, step).procs, step.p);
      }
    } else if !step.Crash? && !step.ExchangeMove? {
      TradeFrame(config, s, step);
      SignalledGrows(config, s.rows, Next(config, s, step).rows);
      OthersKeepAccepted(config, s.procs, Next(config, s, step).procs, step.p);
    }
  }

  lemma OthersKeepAccepted(config: Config, procs: map<Pid, Proc>, procs': map<Pid, Proc>, p: Pid)
    requires PayloadsAccepted(config, procs) && OthersStay(procs, procs', p)
    requires p in procs' ==> !procs'[p].activity.Received?
    ensures PayloadsAccepted(config, procs')
  {}

  lemma {:induction false} RunKeepsSignalled(config: Config, s: State, steps: seq<Step>)
    requires Inv(config, s) && AllSignalled(config, s.rows) && PayloadsAccepted(config, s.procs)
    requires Run(config, s, steps)
    ensures var t := After(config, s, steps);
      AllSignalled(config, t.rows) && PayloadsAccepted(config, t.procs)
    decreases |steps|
  {
    if steps != [] {
      var earlier := steps[..|steps| - 1];
      RunKeepsSignalled(config, s, earlier);
      RunKeepsInv(config, s, earlier);
      StepKeepsSignalled(config, After(config, s, earlier), steps[|steps| - 1]);
    }
  }

  lemma RowIsExactlyAsSignalled(config: Config, rows: Table, id: TradeId) returns (payload: Payload)
    requires RowsFiled(config, rows) && AllSignalled(config, rows) && id in rows
    ensures Records(config, rows[id], payload) && rows[id].clientOrderId == config.clientOrderId(payload.signalId)
    ensures var text := FormatDecimal(rows[id].quantity);
      && text.Ok? && Canonical(text.value) && ParsePlain(text.value).value.Finite?
      && Value(ParsePlain(text.value).value) == Value(payload.quantity)
  {
    assert Signalled(config, rows[id]);
    payload :| Records(config, rows[id], payload);
    QuantityRoundTrip(payload.quantity);
  }

  /** In every run every row is the configured account's: its listing, whatever the page, counts all of them,
      and nobody else's has any. */
  lemma EveryTradeIsTheOwners(config: Config, steps: seq<Step>, userId: nat, limit: nat, offset: nat)
    requires Run(config, Start, steps)
    ensures var rows := After(config, Start, steps).rows;
      && Filed(rows)
      && ListTrades(rows, userId, None, limit, offset).1 == if userId == config.ownerId then |rows| else 0
  {
    RunKeepsInv(config, Start, steps);
    RunKeepsSignalled(config, Start, steps);
    var rows := After(config, Start, steps).rows;
    forall id | id in rows
      ensures rows[id].userId == config.ownerId
    {
      assert Signalled(config, rows[id]);
    }
    assert Matching(rows, userId, None) == if userId == config.ownerId then rows.Keys else {};
    assert |rows.Keys| == |rows|;
  }

  /** In every run, every order at the exchange comes from an accepted signal: same symbol, enabled for
      trading; same side; and the quantity text that was sent denotes exactly the number in the payload,
      within the deployment's limits. */
  lemma EveryOrderIsExactlyAsSignalled(config: Config, steps: seq<Step>, cid: string) returns (payload: Payload)
    requires Run(config, Start, steps) && cid in After(config, Start, steps).orders
    ensures Accepted(config, payload) && payload.quantity.Finite? && config.clientOrderId(payload.signalId) == cid
    ensures var request := After(config, Start, steps).orders[cid].request;
      && request.symbol == payload.symbol && request.side == payload.action && payload.symbol in config.allowedSymbols
      && var text := FormatDecimal(request.quantity);
         && text.Ok? && Canonical(text.value) && ParsePlain(text.value).value.Finite?
         && Value(ParsePlain(text.value).value) == Value(payload.quantity)
         && config.minimum <= Value(ParsePlain(text.value).value) <= config.maximum
  {
    EveryOrderIsWrittenAhead(config, steps, cid);
    RunKeepsInv(config, Start, steps);
    RunKeepsSignalled(config, Start, steps);
    var s := After(config, Start, steps);
    payload := RowIsExactlyAsSignalled(config, s.rows, s.orders[cid].request.tradeId);
  }
}
