/** Duplicate signals: who wins, who is refused and what the refusal says
    (`_create_pending_trade` in app/services/trading_service.py). */
module Arbitration {
  import opened Wrappers
  import opened Models
  import opened Webhook
  import opened Trading
  import opened Protocol
  import opened Safety
  import opened Truth

  /** Some row of a different signal holds the client order id this signal would get. */
  predicate ClientIdTaken(config: Config, rows: Table, signalId: string) {
    exists id :: id in rows && rows[id].signalId != signalId && rows[id].clientOrderId == config.clientOrderId(signalId)
  }

  /** What an answer says is so. */
  predicate AnswerOk(config: Config, rows: Table, a: Answer) {
    match a
    case Accepted202(signalId, id) => id in rows && rows[id].signalId == signalId
    case Duplicate409(signalId, holder) =>
      NamesHolder(rows, signalId, holder) && (holder.None? ==> ClientIdTaken(config, rows, signalId))
  }

  predicate ClashOk(config: Config, rows: Table, a: Activity) {
    a.Clashed? ==> Clashes(rows, a.payload.signalId, config.clientOrderId(a.payload.signalId))
  }

  predicate Fair(config: Config, s: State) {
    && (forall i :: 0 <= i < |s.answers| ==> AnswerOk(config, s.rows, s.answers[i]))
    && (forall i, j :: 0 <= i < j < |s.answers| && s.answers[i].Accepted202? && s.answers[j].Accepted202? ==>
          s.answers[i].tradeId != s.answers[j].tradeId)
    && (forall id :: id in s.rows ==> Accepted202(s.rows[id].signalId, id) in s.answers)
    && (forall p :: p in s.procs ==> ClashOk(config, s.rows, s.procs[p].activity))
  }

  /** Answers stay right while existing rows keep their identity and no new row takes a clashing one. */
  lemma AnswerStaysOk(config: Config, rows: Table, rows': Table, a: Answer)
    requires RowsFiled(config, rows) && RowsFiled(config, rows') && RowsUnique(rows') && RowsGrow(rows, rows')
    requires AnswerOk(config, rows, a)
    ensures AnswerOk(config, rows', a)
  {
    if a.Duplicate409? && a.existing.None? {
      var id :| id in rows && rows[id].signalId != a.signalId
             && rows[id].clientOrderId == config.clientOrderId(a.signalId);
      assert rows'[id].signalId != a.signalId && rows'[id].clientOrderId == config.clientOrderId(a.signalId);
      forall j | j in rows'
        ensures rows'[j].signalId != a.signalId
      {
        assert j != id ==> rows'[j].clientOrderId != rows'[id].clientOrderId;
      }
    }
  }

  lemma ClashStaysOk(config: Config, rows: Table, rows': Table, a: Activity)
    requires RowsGrow(rows, rows') && ClashOk(config, rows, a)
    ensures ClashOk(config, rows', a)
  {
    if a.Clashed? {
      var signalId := a.payload.signalId;
      var id :| id in rows
             && (rows[id].signalId == signalId || rows[id].clientOrderId == config.clientOrderId(signalId));
      assert SameOrder(rows[id], rows'[id]);
    }
  }

  /** A step that leaves rows and answers alone. */
  lemma SameRowsStayFair(config: Config, s: State, t: State, p: Pid)
    requires Fair(config, s) && t.rows == s.rows && t.answers == s.answers && OthersStay(s.procs, t.procs, p)
    requires p in t.procs ==> ClashOk(config, t.rows, t.procs[p].activity)
    ensures Fair(config, t)
  {}

  /** A step that answers nobody and adds no row. */
  lemma EditStaysFair(config: Config, s: State, t: State, p: Pid)
    requires Fair(config, s) && RowsGrow(s.rows, t.rows) && t.rows.Keys == s.rows.Keys
    requires RowsFiled(config, s.rows) && RowsFiled(config, t.rows) && RowsUnique(t.rows)
    requires t.answers == s.answers && OthersStay(s.procs, t.procs, p)
    requires p in t.procs ==> !t.procs[p].activity.Clashed?
    ensures Fair(config, t)
  {
    forall i | 0 <= i < |t.answers|
      ensures AnswerOk(config, t.rows, t.answers[i])
    {
      AnswerStaysOk(config, s.rows, t.rows, t.answers[i]);
    }
    forall q | q in t.procs
      ensures ClashOk(config, t.rows, t.procs[q].activity)
    {
      if q != p {
        ClashStaysOk(config, s.rows, t.rows, s.procs[q].activity);
      }
    }
  }

  lemma InsertStaysFair(config: Config, s: State, p: Pid, id: TradeId, createdAt: int)
    requires RowsFiled(config, s.rows) && RowsUnique(s.rows) && Fair(config, s)
    requires p in s.procs && s.procs[p].activity.Received? && id !in s.rows && Storable(s.procs[p].activity.payload)
    ensures Fair(config, InsertStep(config, s, p, id, createdAt))
  {
    var t := InsertStep(config, s, p, id, createdAt);
    var payload := s.procs[p].activity.payload;
    if Clashes(s.rows, payload.signalId, config.clientOrderId(payload.signalId)) {
      SameRowsStayFair(config, s, t, p);
    } else {
      InsertGrowsRows(config, s.rows, payload, id, createdAt);
      AcceptStaysFair(config, s, t, p, payload.signalId, id);
    }
  }

  lemma AcceptStaysFair(config: Config, s: State, t: State, p: Pid, signalId: string, id: TradeId)
    requires Fair(config, s) && RowsGrow(s.rows, t.rows) && RowsFiled(config, s.rows)
    requires RowsFiled(config, t.rows) && RowsUnique(t.rows)
    requires id !in s.rows && t.rows.Keys == s.rows.Keys + {id} && t.rows[id].signalId == signalId
    requires t.answers == s.answers + [Accepted202(signalId, id)] && OthersStay(s.procs, t.procs, p)
    requires p in t.procs ==> !t.procs[p].activity.Clashed?
    ensures Fair(config, t)
  {
    AnswersExtend(s.answers, Accepted202(signalId, id));
    forall i | 0 <= i < |s.answers|
      ensures AnswerOk(config, t.rows, s.answers[i])
    {
      AnswerStaysOk(config, s.rows, t.rows, s.answers[i]);
    }
    forall q | q in t.procs
      ensures ClashOk(config, t.rows, t.procs[q].activity)
    {
      if q != p {
        ClashStaysOk(config, s.rows, t.rows, s.procs[q].activity);
      }
    }
  }

  lemma NameStaysFair(config: Config, s: State, p: Pid, holder: Option<TradeId>)
    requires Fair(config, s) && p in s.procs && s.procs[p].activity.Clashed?
    requires NamesHolder(s.rows, s.procs[p].activity.payload.signalId, holder)
    ensures Fair(config, NameStep(s, p, holder))
  {
    var t := NameStep(s, p, holder);
    var signalId := s.procs[p].activity.payload.signalId;
    assert ClashOk(config, s.rows, s.procs[p].activity);
    assert AnswerOk(config, s.rows, Duplicate409(signalId, holder));
    AnswersExtend(s.answers, Duplicate409(signalId, holder));
    assert forall q :: q in t.procs ==> t.procs[q] == s.procs[q];
  }

  lemma AnswersExtend(answers: seq<Answer>, a: Answer)
    ensures forall b :: b in answers ==> b in answers + [a]
    ensures forall i :: 0 <= i < |answers| ==> (answers + [a])[i] == answers[i]
    ensures (answers + [a])[|answers|] == a
  {}

  lemma StepStaysFair(config: Config, s: State, step: Step)
    requires RowsFiled(config, s.rows) && RowsUnique(s.rows) && Fair(config, s) && Enabled(config, s, step)
    ensures Fair(config, Next(config, s, step))
  {
    if step.Insert? {
      InsertStaysFair(config, s, step.p, step.id, step.createdAt);
    } else if step.NameHolder? {
      NameStaysFair(config, s, step.p, step.holder);
    } else if HoldsNoTrade(step) {
      NoTradeFrame(config, s, step);
      SameRowsStayFair(config, s, Next(config, s, step), step.p);
    } else if !step.Crash? && !step.ExchangeMove? {
      TradeFrame(config, s, step);
      EditStaysFair(config, s, Next(config, s, step), step.p);
    }
  }

  lemma {:induction false} RunStaysFair(config: Config, s: State, steps: seq<Step>)
    requires Inv(config, s) && Fair(config, s) && Run(config, s, steps)
    ensures Fair(config, After(config, s, steps))
    decreases |steps|
  {
    if steps != [] {
      RunStaysFair(config, s, steps[..|steps| - 1]);
      RunKeepsInv(config, s, steps[..|steps| - 1]);
      StepStaysFair(config, After(config, s, steps[..|steps| - 1]), steps[|steps| - 1]);
    }
  }

  predicate WasAccepted(answers: seq<Answer>, signalId: string) {
    exists i :: 0 <= i < |answers| && answers[i].Accepted202? && answers[i].signalId == signalId
  }

  /** For any number of racing requests in any interleaving: no signal is accepted twice; an answered
      signal was accepted exactly when its client order id was not taken by another signal; and every
      refusal names the row of that very signal, or none exactly when only the client order id clashed. */
  lemma OneAcceptancePerSignal(config: Config, steps: seq<Step>)
    requires Run(config, Start, steps)
    ensures var s := After(config, Start, steps);
      && (forall i, j :: 0 <= i < j < |s.answers| && s.answers[i].Accepted202? && s.answers[j].Accepted202? ==>
            s.answers[i].signalId != s.answers[j].signalId)
      && (forall i :: 0 <= i < |s.answers| ==>
            (WasAccepted(s.answers, s.answers[i].signalId) <==> !ClientIdTaken(config, s.rows, s.answers[i].signalId)))
      && (forall i :: 0 <= i < |s.answers| && s.answers[i].Duplicate409? ==>
            && NamesHolder(s.rows, s.answers[i].signalId, s.answers[i].existing)
            && (s.answers[i].existing.None? <==> ClientIdTaken(config, s.rows, s.answers[i].signalId)))
  {
    RunStaysFair(config, Start, steps);
    RunKeepsInv(config, Start, steps);
    var s := After(config, Start, steps);
    forall i | 0 <= i < |s.answers|
      ensures AnswerOk(config, s.rows, s.answers[i])
      ensures WasAccepted(s.answers, s.answers[i].signalId) <==> !ClientIdTaken(config, s.rows, s.answers[i].signalId)
      ensures s.answers[i].Duplicate409? && s.answers[i].existing.Some? ==>
                !ClientIdTaken(config, s.rows, s.answers[i].signalId)
    {
      AnsweredSignal(config, s, i);
    }
  }

  lemma AnsweredSignal(config: Config, s: State, i: nat)
    requires Inv(config, s) && Fair(config, s) && i < |s.answers|
    ensures var signalId := s.answers[i].signalId;
      && (WasAccepted(s.answers, signalId) <==> !ClientIdTaken(config, s.rows, signalId))
      && (s.answers[i].Duplicate409? && s.answers[i].existing.Some? ==> !ClientIdTaken(config, s.rows, signalId))
  {
    var a := s.answers[i];
    assert AnswerOk(config, s.rows, a);
    if NamesHolder(s.rows, a.signalId, None) {
      forall j | 0 <= j < |s.answers| && s.answers[j].Accepted202?
        ensures s.answers[j].signalId != a.signalId
      {
        assert AnswerOk(config, s.rows, s.answers[j]);
      }
    } else {
      var id :| id in s.rows && s.rows[id].signalId == a.signalId;
      assert Accepted202(s.rows[id].signalId, id) in s.answers;
      assert forall j :: j in s.rows && j != id ==> s.rows[j].clientOrderId != s.rows[id].clientOrderId;
    }
  }

  // ---------------------------------------------------------------- what a refusal leaves

  /** Whose step it is. */
  predicate IsStepOf(step: Step, p: Pid) { !step.Crash? && !step.ExchangeMove? && step.p == p }

  /** Table, exchange, requests and queue are as they were. */
  predicate NothingDone(s: State, t: State) {
    t.rows == s.rows && t.orders == s.orders && t.sent == s.sent && t.queue == s.queue
  }

  /** No step of `p` in the run did anything, whatever other coroutines did. */
  predicate LeavesNoTrace(config: Config, s: State, steps: seq<Step>, p: Pid)
    requires Run(config, s, steps)
    decreases |steps|
  {
    steps == [] ||
    (LeavesNoTrace(config, s, steps[..|steps| - 1], p) &&
     (IsStepOf(steps[|steps| - 1], p) ==> NothingDone(After(config, s, steps[..|steps| - 1]), After(config, s, steps))))
  }

  /** `p` runs from its first step on. */
  predicate KeepsRunning(config: Config, s: State, steps: seq<Step>, p: Pid)
    requires Run(config, s, steps)
    decreases |steps|
  {
    steps != [] && p in After(config, s, steps).procs &&
    (|steps| == 1 || KeepsRunning(config, s, steps[..|steps| - 1], p))
  }

  predicate Unanswered(a: Activity, payload: Payload) { a == Received(payload) || a == Clashed(payload) }

  /** A request whose insert went through never comes back to being unanswered. */
  lemma StepOfRequest(config: Config, s: State, step: Step, p: Pid, payload: Payload)
    requires Enabled(config, s, step) && p in s.procs && p in Next(config, s, step).procs
    requires Next(config, s, step).procs[p].activity.Received? || Next(config, s, step).procs[p].activity.Clashed?
    ensures var a := s.procs[p].activity; var b := Next(config, s, step).procs[p].activity;
      && (a.Received? || a.Clashed?) && a.payload == b.payload
      && (IsStepOf(step, p) ==> NothingDone(s, Next(config, s, step)))
  {
    if !IsStepOf(step, p) {
      OthersLeaveRequest(config, s, step, p);
    } else if HoldsNoTrade(step) {
      NoTradeFrame(config, s, step);
    } else if !step.Insert? && !step.StartReconcile? {
      TradeStepsHoldTrades(config, s, step);
    }
  }

  lemma OthersLeaveRequest(config: Config, s: State, step: Step, p: Pid)
    requires Enabled(config, s, step) && !IsStepOf(step, p) && p in s.procs && p in Next(config, s, step).procs
    ensures Next(config, s, step).procs[p] == s.procs[p]
  {
    if HoldsNoTrade(step) {
      NoTradeFrame(config, s, step);
    }
  }

  lemma TradeStepsHoldTrades(config: Config, s: State, step: Step)
    requires Enabled(config, s, step) && !HoldsNoTrade(step) && !step.Insert? && !step.Crash? && !step.ExchangeMove?
    requires !step.StartReconcile?
    ensures var t := Next(config, s, step);
      step.p in t.procs ==> !t.procs[step.p].activity.Received? && !t.procs[step.p].activity.Clashed?
  {}

  lemma {:induction false} UnansweredLeavesNoTrace(config: Config, s: State, steps: seq<Step>, p: Pid, payload: Payload)
    requires Run(config, s, steps) && KeepsRunning(config, s, steps, p) && steps[0] == Receive(p, payload)
    requires var a := After(config, s, steps).procs[p].activity; a.Received? || a.Clashed?
    ensures LeavesNoTrace(config, s, steps, p) && Unanswered(After(config, s, steps).procs[p].activity, payload)
    decreases |steps|
  {
    var earlier, last := steps[..|steps| - 1], steps[|steps| - 1];
    if |steps| == 1 {
      assert earlier == [] && last == Receive(p, payload);
      assert After(config, s, steps) == Spawn(s, p, Received(payload), None);
      assert LeavesNoTrace(config, s, earlier, p);
    } else {
      StepOfRequest(config, After(config, s, earlier), last, p, payload);
      UnansweredLeavesNoTrace(config, s, earlier, p, payload);
    }
  }

  /** A refused request leaves no trace: from its arrival to its 409, while any number of other coroutines
      act in between, none of its steps changes a row, an order, a request or the queue; and the answer
      names the row holding its signal at that moment, if there is one. */
  lemma RefusedRequestLeavesNoTrace(config: Config, s: State, steps: seq<Step>, p: Pid, payload: Payload,
                                    holder: Option<TradeId>)
    requires Run(config, s, steps) && KeepsRunning(config, s, steps, p) && steps[0] == Receive(p, payload)
    requires Enabled(config, After(config, s, steps), NameHolder(p, holder))
    ensures Run(config, s, steps + [NameHolder(p, holder)])
    ensures LeavesNoTrace(config, s, steps + [NameHolder(p, holder)], p)
    ensures var t := After(config, s, steps + [NameHolder(p, holder)]);
      && t.answers == After(config, s, steps).answers + [Duplicate409(payload.signalId, holder)]
      && NamesHolder(t.rows, payload.signalId, holder)
  {
    UnansweredLeavesNoTrace(config, s, steps, p, payload);
    OneMoreStep(config, s, steps, NameHolder(p, holder));
    assert (steps + [NameHolder(p, holder)])[..|steps|] == steps;
  }
}
