/** One execution of a queued trade with nothing else running, draining a queue, and rounds of resuming
    and draining: how the backlog left by a crash is worked off (app/services/execution_queue.py). */
module Execution {
  import opened Models
  import opened Trading
  import opened Protocol
  import opened Queries

  /** The durable table, the exchange, and every order request made so far. */
  datatype Ledger = Ledger(rows: Table, orders: map<string, Order>, sent: seq<OrderRequest>)

  /** What the outside world does to each trade when it is executed. */
  type Fates = TradeId -> Fate

  predicate Filed(rows: Table) { forall id :: id in rows ==> rows[id].id == id }

  /** `_execute`: claim the trade and, if that changed a row, submit it. */
  function Execute(l: Ledger, id: TradeId, fate: Fate): Ledger {
    if id !in l.rows || !Claimable(l.rows[id]) then l
    else
      var claimed := l.rows[id].(submitted := true);
      var request := RequestOf(claimed, fate.dryRun);
      Ledger(l.rows[id := Submitted(claimed, fate)],
             Moved(Land(l.orders, request, fate.landing), fate.moves), l.sent + [request])
  }

  lemma ExecuteIsClaimThenSubmit(l: Ledger, id: TradeId, fate: Fate)
    ensures var rows := Claim(l.rows, id);
      if id in l.rows && Claimable(l.rows[id]) then
        var request := RequestOf(rows[id], fate.dryRun);
        Execute(l, id, fate) ==
          Ledger(rows[id := Submitted(rows[id], fate)],
                 Moved(Land(l.orders, request, fate.landing), fate.moves), l.sent + [request])
      else Execute(l, id, fate) == l && rows == l.rows
  {
    if id in l.rows && Claimable(l.rows[id]) {
      var claimed := l.rows[id].(submitted := true);
      assert Claim(l.rows, id)[id := Submitted(claimed, fate)] == l.rows[id := Submitted(claimed, fate)];
    }
  }

  /** Executing queue entries one after the other. */
  function Drain(l: Ledger, ids: seq<TradeId>, fates: Fates): Ledger {
    if ids == [] then l
    else
      var last := ids[|ids| - 1];
      Execute(Drain(l, ids[..|ids| - 1], fates), last, fates(last))
  }

  lemma DrainOneMore(l: Ledger, ids: seq<TradeId>, fates: Fates, n: nat)
    requires n < |ids|
    ensures Drain(l, ids[..n + 1], fates) == Execute(Drain(l, ids[..n], fates), ids[n], fates(ids[n]))
  {
    assert ids[..n + 1][..n] == ids[..n];
  }

  // ---------------------------------------------------------------- what draining does

  /** The row left for a trade that was waiting when it was reached. */
  function Outcome(t: Trade, fate: Fate): Trade { Submitted(t.(submitted := true), fate) }

  /** The requests made: one for each waiting trade, when its id is first met. */
  function Requests(rows: Table, ids: seq<TradeId>, fates: Fates): seq<OrderRequest> {
    if ids == [] then []
    else
      var last := ids[|ids| - 1];
      var earlier := ids[..|ids| - 1];
      Requests(rows, earlier, fates) +
      if last in rows && Claimable(rows[last]) && last !in earlier
      then [RequestOf(rows[last], fates(last).dryRun)] else []
  }

  /** Distinct waiting trades are requested one after the other, each as its row describes it. */
  lemma {:induction false} RequestsOfDistinct(rows: Table, ids: seq<TradeId>, fates: Fates)
    requires forall i, j :: 0 <= i < j < |ids| ==> ids[i] != ids[j]
    requires forall i :: 0 <= i < |ids| ==> ids[i] in rows && Claimable(rows[ids[i]])
    ensures var requests := Requests(rows, ids, fates);
      && |requests| == |ids|
      && (forall i :: 0 <= i < |ids| ==> requests[i] == RequestOf(rows[ids[i]], fates(ids[i]).dryRun))
  {
    if ids != [] {
      RequestsOfDistinct(rows, ids[..|ids| - 1], fates);
    }
  }

  lemma OutcomeIsClaimed(t: Trade, fate: Fate)
    ensures var end := Outcome(t, fate); SameOrder(end, t) && !Claimable(end)
  {
    SubmittedKeepsOrder(t.(submitted := true), fate);
  }

  /** Draining submits exactly the waiting trades among the ids, each once however often it is queued,
      and leaves every other row alone. */
  lemma {:induction false} DrainSubmits(l: Ledger, ids: seq<TradeId>, fates: Fates)
    ensures var end := Drain(l, ids, fates);
      && end.rows.Keys == l.rows.Keys
      && end.sent == l.sent + Requests(l.rows, ids, fates)
      && (forall id :: id in l.rows ==>
            end.rows[id] == if id in ids && Claimable(l.rows[id]) then Outcome(l.rows[id], fates(id)) else l.rows[id])
  {
    if ids != [] {
      var earlier := ids[..|ids| - 1];
      var last := ids[|ids| - 1];
      DrainSubmits(l, earlier, fates);
      assert forall id :: id in ids <==> id in earlier || id == last;
      if last in l.rows {
        OutcomeIsClaimed(l.rows[last], fates(last));
      }
    }
  }

  lemma DrainKeepsFiled(l: Ledger, ids: seq<TradeId>, fates: Fates)
    requires Filed(l.rows)
    ensures Filed(Drain(l, ids, fates).rows)
  {
    DrainSubmits(l, ids, fates);
    forall id | id in l.rows
      ensures SameOrder(Outcome(l.rows[id], fates(id)), l.rows[id])
    {
      OutcomeIsClaimed(l.rows[id], fates(id));
    }
  }

  lemma DrainLeavesOthersWaiting(l: Ledger, ids: seq<TradeId>, fates: Fates)
    ensures NeverSubmitted(Drain(l, ids, fates).rows) == NeverSubmitted(l.rows) - Elements(ids)
  {
    DrainSubmits(l, ids, fates);
    forall id | id in l.rows
      ensures !Claimable(Outcome(l.rows[id], fates(id)))
    {
      OutcomeIsClaimed(l.rows[id], fates(id));
    }
  }

  /** The order in which entries are drained, and repetitions, do not matter to the table. */
  lemma DrainOrderIrrelevant(l: Ledger, ids: seq<TradeId>, other: seq<TradeId>, fates: Fates)
    requires forall id :: id in ids <==> id in other
    ensures Drain(l, ids, fates).rows == Drain(l, other, fates).rows
  {
    DrainSubmits(l, ids, fates);
    DrainSubmits(l, other, fates);
  }

  // ---------------------------------------------------------------- resuming

  function TradeIds(queue: seq<Entry>): seq<TradeId> { seq(|queue|, i requires 0 <= i < |queue| => queue[i].tradeId) }

  function Min(a: nat, b: nat): (m: nat)
    ensures m <= a && m <= b && (m == a || m == b)
  {
    if a <= b then a else b
  }

  /** The part of `ids` that `submit` still finds room for. */
  function Fitting(room: int, ids: seq<TradeId>): (r: seq<TradeId>)
    ensures r <= ids && |r| == if room <= 0 then 0 else Min(room, |ids|)
  {
    if room <= 0 then [] else ids[..Min(room, |ids|)]
  }

  /** Handing ids to the queue accepts them in order until it is full and refuses the rest. */
  lemma {:induction false} QueueTakesWhatFits(s: State, capacity: nat, ids: seq<TradeId>)
    ensures TradeIds(PutAll(s, capacity, ids).queue) == TradeIds(s.queue) + Fitting(capacity - |s.queue|, ids)
    decreases |ids|
  {
    if ids != [] {
      var t := Put(s, capacity, ids[0]);
      QueueTakesWhatFits(t, capacity, ids[1..]);
      if |s.queue| < capacity {
        assert TradeIds(t.queue) == TradeIds(s.queue) + [ids[0]];
        assert Fitting(capacity - |s.queue|, ids) == [ids[0]] + Fitting(capacity - |t.queue|, ids[1..]);
      }
    }
  }

  /** A resume on an empty queue enqueues its whole selection, refusing nothing. */
  lemma ResumeIsNeverRefused(s: State, capacity: nat)
    requires s.queue == [] && Filed(s.rows)
    ensures TradeIds(PutAll(s, capacity, ResumeIds(s.rows, capacity)).queue) == ResumeIds(s.rows, capacity)
  {
    QueueTakesWhatFits(s, capacity, ResumeIds(s.rows, capacity));
  }

  /** Resume on an empty queue, then drain it. */
  ghost function Round(l: Ledger, capacity: nat, fates: Fates): Ledger
    requires Filed(l.rows)
  {
    Drain(l, ResumeIds(l.rows, capacity), fates)
  }

  /** A round leaves waiting exactly the trades it did not take, the min(capacity, waiting) smallest ids. */
  lemma RoundTakesSmallest(l: Ledger, capacity: nat, fates: Fates)
    requires Filed(l.rows)
    ensures var end := Round(l, capacity, fates); var ids := ResumeIds(l.rows, capacity);
      && Filed(end.rows)
      && NeverSubmitted(end.rows) == NeverSubmitted(l.rows) - Elements(ids)
      && |Elements(ids)| == Min(capacity, |NeverSubmitted(l.rows)|)
  {
    var ids := ResumeIds(l.rows, capacity);
    DrainKeepsFiled(l, ids, fates);
    DrainLeavesOthersWaiting(l, ids, fates);
    ResumeTakesSmallest(l.rows, capacity);
    DistinctElements(ids);
  }

  /** A round makes one request for each trade it takes, in id order and as its row describes it. */
  lemma RoundSubmitsEachOnce(l: Ledger, capacity: nat, fates: Fates)
    requires Filed(l.rows)
    ensures var ids := ResumeIds(l.rows, capacity); var requests := Requests(l.rows, ids, fates);
      && Round(l, capacity, fates).sent == l.sent + requests
      && |requests| == |ids|
      && (forall i :: 0 <= i < |ids| ==> ids[i] in l.rows)
      && (forall i :: 0 <= i < |ids| ==> requests[i] == RequestOf(l.rows[ids[i]], fates(ids[i]).dryRun))
  {
    var ids := ResumeIds(l.rows, capacity);
    ResumeTakesSmallest(l.rows, capacity);
    assert forall i :: 0 <= i < |ids| ==> ids[i] in ids && ids[i] in NeverSubmitted(l.rows);
    RequestsOfDistinct(l.rows, ids, fates);
    DrainSubmits(l, ids, fates);
  }

  function Elements(ids: seq<TradeId>): set<TradeId> { set id | id in ids }

  lemma {:induction false} DistinctElements(ids: seq<TradeId>)
    requires forall i, j :: 0 <= i < j < |ids| ==> ids[i] != ids[j]
    ensures |Elements(ids)| == |ids|
  {
    if ids != [] {
      var n := |ids| - 1;
      DistinctElements(ids[..n]);
      assert Elements(ids) == Elements(ids[..n]) + {ids[n]};
    }
  }

  /** `k` rounds, each with its own outcomes. */
  ghost function Rounds(l: Ledger, capacity: nat, fates: nat -> Fates, k: nat): (r: Ledger)
    requires Filed(l.rows)
    ensures Filed(r.rows)
  {
    if k == 0 then l
    else
      var before := Rounds(l, capacity, fates, k - 1);
      RoundTakesSmallest(before, capacity, fates(k - 1));
      Round(before, capacity, fates(k - 1))
  }

  lemma RoundShrinksBacklog(l: Ledger, capacity: nat, fates: Fates)
    requires Filed(l.rows)
    ensures var waiting := NeverSubmitted(l.rows); var left := NeverSubmitted(Round(l, capacity, fates).rows);
      left <= waiting && |left| == |waiting| - Min(capacity, |waiting|)
  {
    RoundTakesSmallest(l, capacity, fates);
    var ids := Elements(ResumeIds(l.rows, capacity));
    assert ids <= NeverSubmitted(l.rows);
  }

  /** What is left of `n` after taking `size` as often as `k` times. */
  function Left(n: nat, size: nat, k: nat): nat { if k * size >= n then 0 else n - k * size }

  lemma OneRoundLess(n: nat, size: nat, k: nat)
    requires k > 0
    ensures Left(n, size, k - 1) - Min(size, Left(n, size, k - 1)) == Left(n, size, k)
  {
    assert k * size == (k - 1) * size + size;
  }

  lemma {:induction false} BacklogAfter(l: Ledger, capacity: nat, fates: nat -> Fates, k: nat)
    requires Filed(l.rows)
    ensures var backlog := NeverSubmitted(l.rows); var left := NeverSubmitted(Rounds(l, capacity, fates, k).rows);
      left <= backlog && |left| == Left(|backlog|, capacity, k)
  {
    if k == 0 {
      LeftAtFirst(|NeverSubmitted(l.rows)|, capacity);
    } else {
      BacklogAfter(l, capacity, fates, k - 1);
      RoundShrinksBacklog(Rounds(l, capacity, fates, k - 1), capacity, fates(k - 1));
      RoundsUnfold(l, capacity, fates, k);
      OneRoundLess(|NeverSubmitted(l.rows)|, capacity, k);
    }
  }

  lemma RoundsUnfold(l: Ledger, capacity: nat, fates: nat -> Fates, k: nat)
    requires Filed(l.rows) && k > 0
    ensures Rounds(l, capacity, fates, k) == Round(Rounds(l, capacity, fates, k - 1), capacity, fates(k - 1))
  {}

  lemma LeftAtFirst(n: nat, size: nat)
    ensures Left(n, size, 0) == n
  {}

  /** Recovery terminates with a bound: whatever the outcomes, each round submits exactly
      min(capacity, what is left), so the backlog of N trades is gone after k rounds exactly when
      k * capacity >= N. */
  lemma RoundsClearTheBacklog(l: Ledger, capacity: nat, fates: nat -> Fates, k: nat)
    requires Filed(l.rows)
    ensures var backlog := NeverSubmitted(l.rows); var left := NeverSubmitted(Rounds(l, capacity, fates, k).rows);
      && left <= backlog
      && |left| == Left(|backlog|, capacity, k)
      && (left == {} <==> k * capacity >= |backlog|)
  {
    BacklogAfter(l, capacity, fates, k);
  }
}
