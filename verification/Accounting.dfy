/** The executor's books: what `join` waits on (app/services/execution_queue.py). */
module Accounting {
  import opened Wrappers
  import opened Models
  import opened Webhook
  import opened Protocol

  /** The coroutines executing a queue entry. */
  function Running(procs: map<Pid, Proc>): set<Pid> {
    set p | p in procs && procs[p].ticket.Some?
  }

  predicate Holds(procs: map<Pid, Proc>, n: nat) {
    exists p :: p in procs && procs[p].ticket == Some(n)
  }

  /** The queue is the tail of the entries ever accepted, in order and within capacity. */
  predicate QueueOk(capacity: nat, queue: seq<Entry>, issued: nat) {
    && |queue| <= capacity && |queue| <= issued
    && forall i :: 0 <= i < |queue| ==> queue[i].ticket == issued - |queue| + i
  }

  /** Of the first `taken` entries each is either being executed, by one worker, or retired. */
  predicate TicketsOk(procs: map<Pid, Proc>, retired: set<nat>, taken: nat) {
    && (forall p :: p in procs && procs[p].ticket.Some? ==>
          (procs[p].ticket.value < taken && procs[p].ticket.value !in retired))
    && (forall p, q :: p in procs && q in procs && p != q && procs[p].ticket.Some? ==>
          procs[p].ticket != procs[q].ticket)
    && (forall n :: n in retired ==> n < taken)
    && (forall n: nat :: n < taken ==> n in retired || Holds(procs, n))
  }

  predicate Books(capacity: nat, s: State) {
    && QueueOk(capacity, s.queue, s.issued)
    && TicketsOk(s.procs, s.retired, s.issued - |s.queue|)
    && s.unfinished == |s.queue| + |Running(s.procs)|
    && s.unfinished == s.issued - |s.retired|
  }

  /** The parts of the state the books are about. */
  predicate SameBooks(s: State, t: State) {
    && s.procs == t.procs && s.queue == t.queue && s.issued == t.issued
    && s.retired == t.retired && s.unfinished == t.unfinished
  }

  lemma PutKeepsBooks(capacity: nat, s: State, id: TradeId)
    requires Books(capacity, s)
    ensures Books(capacity, Put(s, capacity, id))
  {}

  lemma {:induction false} PutAllKeepsBooks(capacity: nat, s: State, ids: seq<TradeId>)
    requires Books(capacity, s)
    ensures Books(capacity, PutAll(s, capacity, ids))
    decreases |ids|
  {
    if ids != [] {
      PutKeepsBooks(capacity, s, ids[0]);
      PutAllKeepsBooks(capacity, Put(s, capacity, ids[0]), ids[1..]);
    }
  }

  lemma OneMoreRunning(procs: map<Pid, Proc>, p: Pid, proc: Proc)
    requires p !in procs && proc.ticket.Some?
    ensures |Running(procs[p := proc])| == |Running(procs)| + 1
  {
    assert Running(procs[p := proc]) == Running(procs) + {p};
  }

  lemma DequeueKeepsBooks(capacity: nat, s: State, p: Pid)
    requires Books(capacity, s) && s.queue != [] && p !in s.procs
    ensures Books(capacity, DequeueStep(s, p))
  {
    var t := DequeueStep(s, p);
    OneMoreRunning(s.procs, p, t.procs[p]);
    forall n: nat | n < t.issued - |t.queue|
      ensures n in t.retired || Holds(t.procs, n)
    {
      if n == s.queue[0].ticket {
        assert t.procs[p].ticket == Some(n);
      } else if n !in s.retired {
        var q :| q in s.procs && s.procs[q].ticket == Some(n);
        assert t.procs[q].ticket == Some(n);
      }
    }
  }

  lemma SpawnKeepsBooks(capacity: nat, s: State, p: Pid, activity: Activity)
    requires Books(capacity, s) && p !in s.procs
    ensures Books(capacity, Spawn(s, p, activity, None))
  {
    var t := Spawn(s, p, activity, None);
    assert Running(t.procs) == Running(s.procs);
    HoldersMove(s.procs, t.procs, s.retired, s.issued - |s.queue|);
  }

  lemma BecomeKeepsBooks(capacity: nat, s: State, p: Pid, activity: Activity)
    requires Books(capacity, s) && p in s.procs
    ensures Books(capacity, Become(s, p, activity))
  {
    var t := Become(s, p, activity);
    assert Running(t.procs) == Running(s.procs);
    HoldersMove(s.procs, t.procs, s.retired, s.issued - |s.queue|);
  }

  lemma HoldersMove(procs: map<Pid, Proc>, procs': map<Pid, Proc>, retired: set<nat>, taken: nat)
    requires forall n: nat :: n < taken ==> n in retired || Holds(procs, n)
    requires forall p :: p in procs ==> p in procs' && procs'[p].ticket == procs[p].ticket
    ensures forall n: nat :: n < taken ==> n in retired || Holds(procs', n)
  {
    forall n: nat | n < taken && n !in retired
      ensures Holds(procs', n)
    {
      var q :| q in procs && procs[q].ticket == Some(n);
      assert procs'[q].ticket == Some(n);
    }
  }

  lemma OneLessRunning(procs: map<Pid, Proc>, p: Pid)
    requires p in procs
    ensures |Running(procs - {p})| == |Running(procs)| - if procs[p].ticket.Some? then 1 else 0
  {
    if procs[p].ticket.Some? {
      assert p in Running(procs);
      assert Running(procs - {p}) == Running(procs) - {p};
    } else {
      assert Running(procs - {p}) == Running(procs);
    }
  }

  lemma FinishKeepsBooks(capacity: nat, s: State, p: Pid)
    requires Books(capacity, s) && p in s.procs
    ensures Books(capacity, Finish(s, p))
  {
    var t := Finish(s, p);
    OneLessRunning(s.procs, p);
    forall n: nat | n < t.issued - |t.queue| && n !in t.retired
      ensures Holds(t.procs, n)
    {
      var q :| q in s.procs && s.procs[q].ticket == Some(n);
      assert q != p;
      assert q in t.procs && t.procs[q].ticket == Some(n);
    }
  }

  /** The remaining steps move one coroutine or end it, and leave the queue alone. */
  lemma OneMovesOrEnds(config: Config, s: State, step: Step)
    requires Enabled(config, s, step)
    requires !step.Receive? && !step.ResumeSelect? && !step.StartReconcile? && !step.HandOver? && !step.ResumeSubmit?
    requires !step.Dequeue? && !step.Crash? && !step.ExchangeMove?
    ensures step.p in s.procs
    ensures var t := Next(config, s, step);
      if step.p in t.procs then SameBooks(t, Become(s, step.p, t.procs[step.p].activity))
      else SameBooks(t, Finish(s, step.p))
  {}

  lemma OthersKeepBooks(config: Config, s: State, step: Step)
    requires Books(config.capacity, s) && Enabled(config, s, step)
    requires !step.Receive? && !step.ResumeSelect? && !step.StartReconcile? && !step.HandOver? && !step.ResumeSubmit?
    requires !step.Dequeue? && !step.Crash? && !step.ExchangeMove?
    ensures Books(config.capacity, Next(config, s, step))
  {
    OneMovesOrEnds(config, s, step);
    var t := Next(config, s, step);
    if step.p in t.procs {
      BecomeKeepsBooks(config.capacity, s, step.p, t.procs[step.p].activity);
    } else {
      FinishKeepsBooks(config.capacity, s, step.p);
    }
  }

  lemma HandOverKeepsBooks(capacity: nat, s: State, p: Pid)
    requires Books(capacity, s) && p in s.procs && s.procs[p].activity.Created?
    ensures Books(capacity, HandOverStep(s, capacity, p))
  {
    FinishKeepsBooks(capacity, s, p);
    PutKeepsBooks(capacity, Finish(s, p), s.procs[p].activity.tradeId);
  }

  lemma ResumeKeepsBooks(capacity: nat, s: State, p: Pid)
    requires Books(capacity, s) && p in s.procs && s.procs[p].activity.Resuming?
    ensures Books(capacity, ResumeStep(s, capacity, p))
  {
    FinishKeepsBooks(capacity, s, p);
    PutAllKeepsBooks(capacity, Finish(s, p), s.procs[p].activity.tradeIds);
  }

  lemma StepKeepsBooks(config: Config, s: State, step: Step)
    requires Books(config.capacity, s) && Enabled(config, s, step)
    ensures Books(config.capacity, Next(config, s, step))
  {
    match step
    case Receive(p, payload) => SpawnKeepsBooks(config.capacity, s, p, Received(payload));
    case ResumeSelect(p, ids) => SpawnKeepsBooks(config.capacity, s, p, Resuming(ids));
    case StartReconcile(p, id) => SpawnKeepsBooks(config.capacity, s, p, Asking(s.rows[id]));
    case HandOver(p) => HandOverKeepsBooks(config.capacity, s, p);
    case ResumeSubmit(p) => ResumeKeepsBooks(config.capacity, s, p);
    case Dequeue(p) => DequeueKeepsBooks(config.capacity, s, p);
    case Crash =>
    case ExchangeMove(_, _) =>
    case _ => OthersKeepBooks(config, s, step);
  }

  lemma {:induction false} RunKeepsBooks(config: Config, s: State, steps: seq<Step>)
    requires Books(config.capacity, s) && Run(config, s, steps)
    ensures Books(config.capacity, After(config, s, steps))
    decreases |steps|
  {
    if steps != [] {
      RunKeepsBooks(config, s, steps[..|steps| - 1]);
      StepKeepsBooks(config, After(config, s, steps[..|steps| - 1]), steps[|steps| - 1]);
    }
  }

  /** In every run: unfinished work is the queued entries plus the entries in execution, the queue never
      exceeds its capacity, and when `join` returns every entry ever accepted has been retired, each one
      once, including those whose execution raised. */
  lemma QueueAccounting(config: Config, steps: seq<Step>)
    requires Run(config, Start, steps)
    ensures var s := After(config, Start, steps);
      && s.unfinished == |s.queue| + |Running(s.procs)|
      && |s.queue| <= config.capacity
      && |s.retired| + s.unfinished == s.issued
      && (s.unfinished == 0 ==>
            (s.queue == [] && Running(s.procs) == {} && forall n: nat :: n in s.retired <==> n < s.issued))
  {
    RunKeepsBooks(config, Start, steps);
    var s := After(config, Start, steps);
    if s.unfinished == 0 {
      assert forall p :: p in s.procs && s.procs[p].ticket.Some? ==> p in Running(s.procs);
      assert forall n: nat :: n < s.issued ==> n in s.retired;
    }
  }
}
