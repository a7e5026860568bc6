/** No accepted trade is forgotten while the queue refuses nothing and no process dies: somebody is on the way
    to claim each waiting row, so a system at rest has none (app/services/execution_queue.py). */
module Attendance {
  import opened Wrappers
  import opened Models
  import opened BinanceClient
  import opened Webhook
  import opened Trading
  import opened Protocol
  import opened Safety
  import opened Lifecycle
  import opened Unsent
  import opened Refinement

  predicate Queued(queue: seq<Entry>, id: TradeId) {
    exists i :: 0 <= i < |queue| && queue[i].tradeId == id
  }

  predicate Heads(a: Activity, id: TradeId) { a == Created(id) || a == Claiming(id) }

  /** The trade is queued, or a coroutine is on the way to hand it over or claim it. */
  predicate Awaited(s: State, id: TradeId) {
    || Queued(s.queue, id)
    || (exists p :: p in s.procs && Heads(s.procs[p].activity, id))
  }

  ghost predicate Attended(s: State) { forall id :: Waits(s.rows, id) ==> Awaited(s, id) }

  /** No full queue turns a trade away, no crash, and no coroutine on its way to a trade dies. */
  predicate Lossless(config: Config, s: State, step: Step) {
    match step
    case HandOver(_) => |s.queue| < config.capacity
    case Abort(p) => p in s.procs ==> !s.procs[p].activity.Created? && !s.procs[p].activity.Claiming?
    case Crash => false
    case _ => true
  }

  predicate LosslessRun(config: Config, s: State, steps: seq<Step>)
    requires Run(config, s, steps)
    decreases |steps|
  {
    steps == [] ||
    (LosslessRun(config, s, steps[..|steps| - 1]) &&
     Lossless(config, After(config, s, steps[..|steps| - 1]), steps[|steps| - 1]))
  }

  // ---------------------------------------------------------------- one step

  lemma CommitMakesNoneWait(rows: Table, a: Activity, id: TradeId)
    requires (a.Answered? || a.Resolving?) && a.trade.id in rows && id in rows
    requires var after := Write(rows, a.trade, Edited(a))[id];
      Claimable(after) && (rows[id].submitted ==> after.submitted)
    ensures Claimable(rows[id])
  {
    if a.trade.id == id {
      CommitOfUnsubmitted(rows[id], a);
    }
  }

  lemma SettleMakesNoneWait(config: Config, s: State, p: Pid, id: TradeId)
    requires RowsFiled(config, s.rows) && RowsUnique(s.rows) && p in s.procs && s.procs[p].activity.Answered?
    requires s.procs[p].activity.trade.id in s.rows && Waits(SettleStep(s, p).rows, id)
    ensures Waits(s.rows, id)
  {
    SettleFrame(config, s, p);
    CommitMakesNoneWait(s.rows, s.procs[p].activity, id);
  }

  lemma ResolveMakesNoneWait(config: Config, s: State, p: Pid, id: TradeId)
    requires RowsFiled(config, s.rows) && RowsUnique(s.rows) && p in s.procs && s.procs[p].activity.Resolving?
    requires s.procs[p].activity.trade.id in s.rows && Waits(ResolveStep(s, p).rows, id)
    ensures Waits(s.rows, id)
  {
    ResolveFrame(config, s, p);
    CommitMakesNoneWait(s.rows, s.procs[p].activity, id);
  }

  /** Only an insert makes a row wait. */
  lemma WaitingWasWaiting(config: Config, s: State, step: Step, id: TradeId)
    requires RowsFiled(config, s.rows) && RowsUnique(s.rows) && Enabled(config, s, step) && !step.Insert?
    requires Waits(Next(config, s, step).rows, id)
    ensures Waits(s.rows, id)
  {
    if step.Settle? {
      SettleMakesNoneWait(config, s, step.p, id);
    } else if step.Resolve? {
      ResolveMakesNoneWait(config, s, step.p, id);
    } else {
      RowsOnlyGrow(config, s, step);
      if !step.ClaimRow? {
        OthersLeaveRow(config, s, step, id);
      }
    }
  }

  /** Whoever was awaited still is, if the moving coroutine and the queue see to it. */
  lemma AttendanceStays(s: State, t: State, p: Pid)
    requires Attended(s) && forall id :: Waits(t.rows, id) ==> Waits(s.rows, id) || Awaited(t, id)
    requires forall q :: q in s.procs && q != p ==> q in t.procs && t.procs[q] == s.procs[q]
    requires forall id :: Queued(s.queue, id) ==> Awaited(t, id)
    requires p in s.procs ==> forall id :: Heads(s.procs[p].activity, id) && Waits(t.rows, id) ==> Awaited(t, id)
    ensures Attended(t)
  {
    forall id | Waits(t.rows, id)
      ensures Awaited(t, id)
    {
      if Waits(s.rows, id) && !Queued(s.queue, id) {
        var q :| q in s.procs && Heads(s.procs[q].activity, id);
        assert q != p ==> Heads(t.procs[q].activity, id);
      }
    }
  }

  lemma {:induction false} PutAllKeepsQueued(s: State, capacity: nat, ids: seq<TradeId>)
    ensures s.queue <= PutAll(s, capacity, ids).queue
    decreases |ids|
  {
    if ids != [] {
      PutAllKeepsQueued(Put(s, capacity, ids[0]), capacity, ids[1..]);
    }
  }

  lemma QueuedInLonger(queue: seq<Entry>, longer: seq<Entry>)
    requires queue <= longer
    ensures forall id :: Queued(queue, id) ==> Queued(longer, id)
  {
    forall id | Queued(queue, id)
      ensures Queued(longer, id)
    {
      var i :| 0 <= i < |queue| && queue[i].tradeId == id;
      assert longer[i].tradeId == id;
    }
  }

  lemma InsertIsAttended(config: Config, s: State, p: Pid, id: TradeId, createdAt: int)
    requires Attended(s) && p in s.procs && s.procs[p].activity.Received?
    requires id !in s.rows && Storable(s.procs[p].activity.payload)
    ensures Attended(InsertStep(config, s, p, id, createdAt))
  {
    var t := InsertStep(config, s, p, id, createdAt);
    assert id in t.rows ==> Heads(t.procs[p].activity, id);
    QueuedInLonger(s.queue, t.queue);
    AttendanceStays(s, t, p);
  }

  lemma HandOverIsAttended(s: State, capacity: nat, p: Pid)
    requires Attended(s) && p in s.procs && s.procs[p].activity.Created? && |s.queue| < capacity
    ensures Attended(HandOverStep(s, capacity, p))
  {
    var t := HandOverStep(s, capacity, p);
    assert t.queue[|s.queue|].tradeId == s.procs[p].activity.tradeId;
    QueuedInLonger(s.queue, t.queue);
    AttendanceStays(s, t, p);
  }

  lemma InlineIsAttended(s: State, p: Pid)
    requires Attended(s) && p in s.procs && s.procs[p].activity.Created?
    ensures Attended(InlineStep(s, p))
  {
    var t := InlineStep(s, p);
    assert Heads(t.procs[p].activity, s.procs[p].activity.tradeId);
    QueuedInLonger(s.queue, t.queue);
    AttendanceStays(s, t, p);
  }

  lemma ResumeIsAttended(s: State, capacity: nat, p: Pid)
    requires Attended(s) && p in s.procs && s.procs[p].activity.Resuming?
    ensures Attended(ResumeStep(s, capacity, p))
  {
    var t := ResumeStep(s, capacity, p);
    ResumeFrame(s, capacity, p);
    PutAllKeepsQueued(Finish(s, p), capacity, s.procs[p].activity.tradeIds);
    QueuedInLonger(s.queue, t.queue);
    AttendanceStays(s, t, p);
  }

  lemma DequeueIsAttended(s: State, p: Pid)
    requires Attended(s) && s.queue != [] && p !in s.procs
    ensures Attended(DequeueStep(s, p))
  {
    var t := DequeueStep(s, p);
    assert Heads(t.procs[p].activity, s.queue[0].tradeId);
    forall id | Queued(s.queue, id)
      ensures Awaited(t, id)
    {
      var i :| 0 <= i < |s.queue| && s.queue[i].tradeId == id;
      assert i > 0 ==> t.queue[i - 1].tradeId == id;
    }
    AttendanceStays(s, t, p);
  }

  lemma ClaimIsAttended(s: State, p: Pid)
    requires Attended(s) && p in s.procs && s.procs[p].activity.Claiming?
    ensures Attended(ClaimStep(s, p))
  {
    var t := ClaimStep(s, p);
    QueuedInLonger(s.queue, t.queue);
    AttendanceStays(s, t, p);
  }

  /** A coroutine on its way to no trade makes a step that leaves the queue alone. */
  predicate Elsewhere(s: State, step: Step) {
    && !step.Crash? && !step.ExchangeMove?
    && (step.p in s.procs ==> !s.procs[step.p].activity.Created? && !s.procs[step.p].activity.Claiming?)
    && !step.Insert? && !step.ResumeSubmit? && !step.Dequeue?
  }

  lemma ElsewhereIsAttended(config: Config, s: State, step: Step)
    requires RowsFiled(config, s.rows) && RowsUnique(s.rows) && Attended(s)
    requires Enabled(config, s, step) && Elsewhere(s, step)
    ensures Attended(Next(config, s, step))
  {
    var t := Next(config, s, step);
    forall id | Waits(t.rows, id)
      ensures Waits(s.rows, id)
    {
      WaitingWasWaiting(config, s, step, id);
    }
    ElsewhereFrame(config, s, step);
    QueuedInLonger(s.queue, t.queue);
    AttendanceStays(s, t, step.p);
  }

  lemma ElsewhereFrame(config: Config, s: State, step: Step)
    requires Enabled(config, s, step) && Elsewhere(s, step)
    ensures var t := Next(config, s, step);
      t.queue == s.queue && forall q :: q in s.procs && q != step.p ==> q in t.procs && t.procs[q] == s.procs[q]
  {
    if step.Send? {
      SendElsewhere(s, step.p, step.dryRun, step.landing, step.reply);
    } else if step.Settle? {
      SettleElsewhere(s, step.p);
    }
  }

  lemma SendElsewhere(s: State, p: Pid, dryRun: bool, landing: Option<OrderStatus>, reply: Wire)
    requires p in s.procs && s.procs[p].activity.Sending?
    ensures var t := SendStep(s, p, dryRun, landing, reply);
      t.queue == s.queue && forall q :: q in s.procs && q != p ==> q in t.procs && t.procs[q] == s.procs[q]
  {}

  lemma SettleElsewhere(s: State, p: Pid)
    requires p in s.procs && s.procs[p].activity.Answered? && s.procs[p].activity.trade.id in s.rows
    ensures var t := SettleStep(s, p);
      t.queue == s.queue && forall q :: q in s.procs && q != p ==> q in t.procs && t.procs[q] == s.procs[q]
  {}

  lemma StepIsAttended(config: Config, s: State, step: Step)
    requires RowsFiled(config, s.rows) && RowsUnique(s.rows) && Attended(s)
    requires Enabled(config, s, step) && Lossless(config, s, step)
    ensures Attended(Next(config, s, step))
  {
    if step.Insert? {
      InsertIsAttended(config, s, step.p, step.id, step.createdAt);
    } else if step.HandOver? {
      HandOverIsAttended(s, config.capacity, step.p);
    } else if step.GoInline? {
      InlineIsAttended(s, step.p);
    } else if step.ResumeSubmit? {
      ResumeIsAttended(s, config.capacity, step.p);
    } else if step.Dequeue? {
      DequeueIsAttended(s, step.p);
    } else if step.ClaimRow? {
      ClaimIsAttended(s, step.p);
    } else if step.ExchangeMove? {
      assert forall id :: Awaited(s, id) ==> Awaited(Next(config, s, step), id);
    } else {
      ElsewhereIsAttended(config, s, step);
    }
  }

  // ---------------------------------------------------------------- whole runs

  /** Whatever interleaves, fails with a trade in hand or is reconciled meanwhile. */
  lemma {:induction false} NothingIsForgotten(config: Config, steps: seq<Step>)
    requires Run(config, Start, steps) && LosslessRun(config, Start, steps)
    ensures Attended(After(config, Start, steps))
    decreases |steps|
  {
    if steps != [] {
      var earlier := steps[..|steps| - 1];
      NothingIsForgotten(config, earlier);
      RunKeepsInv(config, Start, earlier);
      StepIsAttended(config, After(config, Start, earlier), steps[|steps| - 1]);
    }
  }

  /** So a run that follows the script and forgets nothing ends, once it is at rest, as inline execution. */
  lemma LosslessRunRefinesInline(config: Config, script: Script, steps: seq<Step>)
    requires Run(config, Start, steps) && ScriptedRun(config, script, Start, steps)
    requires LosslessRun(config, Start, steps) && Drained(After(config, Start, steps))
    ensures var s := After(config, Start, steps);
      World(s.rows, s.orders) == InlineAll(config, script, Inserts(config, Start, steps))
  {
    NothingIsForgotten(config, steps);
    QueuedRefinesInline(config, script, steps);
    var s := After(config, Start, steps);
    forall id | id in s.rows
      ensures !Claimable(s.rows[id])
    {
      assert Waits(s.rows, id) ==> Awaited(s, id);
    }
  }
}
