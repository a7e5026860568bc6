/** The executor's queue and worker (app/services/execution_queue.py), and the webhook's entry point,
    which submits inline or hands the trade to the executor (`process_signal`). */
module Executor {
  import opened Wrappers
  import opened Decimals
  import opened Models
  import opened Webhook
  import opened Trading
  import opened Protocol
  import opened Queries
  import opened Execution
  import opened Services

  class TradeExecutor {
    const capacity: nat
    const service: TradingService
    var queue: seq<TradeId>
    var unfinished: nat                               // asyncio.Queue's counter, what join() waits on

    /** Nothing is being executed right now. */
    ghost predicate Idle()
      reads this
    {
      |queue| <= capacity && unfinished == |queue|
    }

    constructor (service: TradingService, capacity: nat)
      ensures this.service == service && this.capacity == capacity && queue == [] && Idle()
    {
      this.service, this.capacity, queue, unfinished := service, capacity, [], 0;
    }

    /** `submit`: refused exactly when the queue is full. */
    method Submit(id: TradeId) returns (accepted: bool)
      requires Idle()
      modifies this
      ensures Idle() && (accepted <==> |old(queue)| < capacity)
      ensures queue == old(queue) + if accepted then [id] else []
    {
      accepted := |queue| < capacity;
      if accepted {
        queue, unfinished := queue + [id], unfinished + 1;
      }
    }

    /** `resume_pending`: selects at most `capacity` unsubmitted trades, smallest id first, and queues as
        many as there is room for; on an empty queue, all of them. */
    method ResumePending() returns (selected: nat)
      requires Idle() && service.db.Valid()
      modifies this
      ensures Idle()
      ensures var ids := ResumeIds(service.db.rows, capacity);
        && selected == |ids|
        && queue == old(queue) + Fitting(capacity - |old(queue)|, ids)
        && (old(queue) == [] ==> queue == ids)
    {
      var ids := service.db.SelectUnsubmitted(capacity);
      var room := capacity - |queue|;
      ghost var start := queue;
      for i := 0 to |ids|
        invariant Idle() && queue == start + Fitting(room, ids[..i])
      {
        FittingOneMore(start, room, ids, i);
        var _ := Submit(ids[i]);
      }
      AllFit(room, ids);
      selected := |ids|;
    }

    /** `_execute`: claim, and submit what was claimed; `ok` is false when an exception escapes. */
    method ExecuteTrade(id: TradeId, fate: Fate) returns (ok: bool)
      requires service.db.Valid()
      modifies service.db`rows, service.exchange
      ensures service.db.Valid()
      ensures service.Now() == Execute(old(service.Now()), id, fate)
      ensures ok <==> !(Waits(old(service.db.rows), id) && Escapes(fate))
    {
      ExecuteIsClaimThenSubmit(service.Now(), id, fate);
      var claimed := service.ClaimForSubmission(id);
      ok := true;
      if claimed.Some? {
        ok := service.SubmitToBinance(claimed.value, fate);
      }
    }

    /** The worker loop until the queue is empty: an exception in one execution loses neither the worker
        nor the entry's `task_done`. */
    method Work(fates: Fates)
      requires Idle() && service.db.Valid()
      modifies this, service.db`rows, service.exchange
      ensures Idle() && queue == [] && unfinished == 0
      ensures service.db.Valid()
      ensures service.Now() == Drain(old(service.Now()), old(queue), fates)
    {
      ghost var entries := queue;
      ghost var start := service.Now();
      ghost var n := 0;
      while queue != []
        invariant n <= |entries| && queue == entries[n..]
        invariant Idle() && service.db.Valid()
        invariant service.Now() == Drain(start, entries[..n], fates)
        decreases |queue|
      {
        DrainOneMore(start, entries, fates, n);
        var id := queue[0];
        queue := queue[1..];
        var _ := ExecuteTrade(id, fates(id));
        unfinished := unfinished - 1;
        n := n + 1;
      }
      assert entries[..n] == entries;
    }
  }

  lemma AllFit(room: int, ids: seq<TradeId>)
    ensures ids[..|ids|] == ids && (room >= |ids| ==> [] + Fitting(room, ids) == ids)
  {}

  lemma FittingOneMore(queue: seq<TradeId>, room: int, ids: seq<TradeId>, i: nat)
    requires i < |ids|
    ensures var longer := queue + Fitting(room, ids[..i]);
      queue + Fitting(room, ids[..i + 1]) == longer + if |longer| < |queue| + room then [ids[i]] else []
  {}

  /** What the webhook answers. */
  datatype Reply =
    | AcceptedAs(id: TradeId)
    | SchemaRefused(problems: seq<SchemaError>)
    | BusinessRefused(rule: BusinessError)
    | NotCreated(reason: CreateError)
    | ServerError(created: TradeId)

  predicate Taken(r: Reply) { r.AcceptedAs? || r.ServerError? }

  function TakenAs(r: Reply): TradeId
    requires Taken(r)
  {
    if r.AcceptedAs? then r.id else r.created
  }

  /** The second half of `process_signal`, on a trade just committed: the trade is answered, unless an
      exception leaves its inline execution. A full queue does not show in the answer. */
  method HandOver(executor: TradeExecutor, queued: bool, id: TradeId, fate: Fate) returns (r: Reply)
    requires executor.Idle() && executor.service.db.Valid()
    modifies executor, executor.service.db`rows, executor.service.exchange
    ensures executor.Idle() && executor.service.db.Valid()
    ensures r == if !queued && Waits(old(executor.service.db.rows), id) && Escapes(fate) then ServerError(id)
                 else AcceptedAs(id)
    ensures executor.service.Now() ==
              if queued then old(executor.service.Now()) else Execute(old(executor.service.Now()), id, fate)
    ensures executor.queue == old(executor.queue) +
              if queued then Fitting(executor.capacity - |old(executor.queue)|, [id]) else []
  {
    r := AcceptedAs(id);
    if queued {
      var _ := executor.Submit(id);
    } else {
      var ok := executor.ExecuteTrade(id, fate);
      if !ok { r := ServerError(id); }
    }
  }

  /** The one answer a signal gets, case by case: the schema's problems, the rule it breaks, a column too small
      for it, the row that already holds it, an error after its trade was created, or that trade. */
  predicate Answers(r: Reply, config: Config, rows: Table, queued: bool, payload: Payload, fate: Fate) {
    var formed := WellFormed(payload);
    var taken := Accepted(config, payload) && Value(payload.quantity) < TenTo(16)
                 && !Clashes(rows, payload.signalId, config.clientOrderId(payload.signalId));
    && (r.SchemaRefused? <==> !formed)
    && (r.SchemaRefused? ==> ValidateSchema(payload) == Err(r.problems))
    && (r == BusinessRefused(SymbolNotEnabled) <==> formed && payload.symbol !in config.allowedSymbols)
    && (r == BusinessRefused(BelowMinimum) <==>
          formed && payload.symbol in config.allowedSymbols && Value(payload.quantity) < config.minimum)
    && (r == BusinessRefused(AboveMaximum) <==>
          formed && payload.symbol in config.allowedSymbols
          && config.minimum <= Value(payload.quantity) && config.maximum < Value(payload.quantity))
    && (r == NotCreated(Overflow) <==> Accepted(config, payload) && Value(payload.quantity) >= TenTo(16))
    && (r.NotCreated? && r.reason.DuplicateSignal? <==>
          Accepted(config, payload) && Value(payload.quantity) < TenTo(16) && !taken)
    && (r.NotCreated? && r.reason.DuplicateSignal? ==> NamesHolder(rows, payload.signalId, r.reason.existing))
    && (r.ServerError? <==> taken && !queued && Escapes(fate))
    && (r.AcceptedAs? <==> taken && (queued || !Escapes(fate)))
  }

  lemma RefusedBySchema(config: Config, rows: Table, queued: bool, payload: Payload, fate: Fate)
    requires ValidateSchema(payload).Err?
    ensures Answers(SchemaRefused(ValidateSchema(payload).error), config, rows, queued, payload, fate)
  {
    SchemaProblemsExactly(payload);
  }

  lemma RefusedByRules(config: Config, rows: Table, queued: bool, payload: Payload, fate: Fate)
    requires ValidateSchema(payload).Ok? && ValidateSignal(config, payload).Err?
    ensures Answers(BusinessRefused(ValidateSignal(config, payload).error), config, rows, queued, payload, fate)
  {
    SchemaProblemsExactly(payload);
    RulesExactly(config, payload);
  }

  lemma AcceptedAnswer(r: Reply, config: Config, rows: Table, queued: bool, payload: Payload, fate: Fate)
    requires Accepted(config, payload) && !r.SchemaRefused? && !r.BusinessRefused?
    requires var clash := Clashes(rows, payload.signalId, config.clientOrderId(payload.signalId));
      && (r == NotCreated(Overflow) <==> !Storable(payload))
      && (r.NotCreated? && r.reason.DuplicateSignal? <==> Storable(payload) && clash)
      && (r.NotCreated? && r.reason.DuplicateSignal? ==> NamesHolder(rows, payload.signalId, r.reason.existing))
      && (r.ServerError? <==> Storable(payload) && !clash && !queued && Escapes(fate))
      && (r.AcceptedAs? <==> Storable(payload) && !clash && (queued || !Escapes(fate)))
    ensures Answers(r, config, rows, queued, payload, fate)
  {
    SchemaProblemsExactly(payload);
    RulesExactly(config, payload);
    QuantityRoundTrip(payload.quantity);
  }

  /** `process_signal`: each case has its own answer. A signal that is taken leaves its row as the only change
      in the queued mode, and is executed at once in the inline mode; any other leaves everything as it was. */
  method ProcessSignal(executor: TradeExecutor, queued: bool, payload: Payload, createdAt: int, fate: Fate)
    returns (r: Reply)
    requires executor.Idle() && executor.service.db.Valid()
    modifies executor, executor.service.db, executor.service.exchange
    ensures executor.Idle() && executor.service.db.Valid()
    ensures Answers(r, executor.service.config, old(executor.service.db.rows), queued, payload, fate)
    ensures !Taken(r) ==> executor.service.Now() == old(executor.service.Now()) && executor.queue == old(executor.queue)
    ensures Taken(r) ==> payload.quantity.Finite? && Storable(payload) && TakenAs(r) !in old(executor.service.db.rows)
    ensures Taken(r) ==>
      var row := NewTrade(executor.service.config, payload, TakenAs(r), createdAt);
      var before := old(executor.service.Now());
      var inserted := before.(rows := before.rows[TakenAs(r) := row]);
      executor.service.Now() == if queued then inserted else Execute(inserted, TakenAs(r), fate)
    ensures Taken(r) ==>
      executor.queue == old(executor.queue) +
        if queued then Fitting(executor.capacity - |old(executor.queue)|, [TakenAs(r)]) else []
  {
    ghost var config, rows := executor.service.config, executor.service.db.rows;
    var checked := ValidateSchema(payload);
    if checked.Err? {
      RefusedBySchema(config, rows, queued, payload, fate);
      return SchemaRefused(checked.error);
    }
    var valid := ValidateSignal(executor.service.config, payload);
    if valid.Err? {
      RefusedByRules(config, rows, queued, payload, fate);
      return BusinessRefused(valid.error);
    }
    var created := executor.service.CreatePendingTrade(payload, createdAt);
    if created.Err? {
      r := NotCreated(created.error);
    } else {
      r := HandOver(executor, queued, created.value, fate);
    }
    AcceptedAnswer(r, config, rows, queued, payload, fate);
  }
}
