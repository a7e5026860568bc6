/** One reconciliation run over a batch of trades: what it counts, what it changes, and how repeated
    runs finish (app/services/reconciliation_service.py). */
module Reconciliation {
  import opened Wrappers
  import opened Decimals
  import opened Models
  import opened BinanceClient
  import opened Trading
  import opened Queries
  import opened Execution
  import opened Outcomes

  /** What happens when one trade is reconciled: the reply to its query, and whether the commit fails. */
  datatype Asked = Asked(reply: Wire, commitFails: bool)

  type Replies = TradeId -> Asked

  function Learned(trade: Trade, asked: Asked): Trade { Reconciled(trade, asked.reply, asked.commitFails) }

  /** `reconcile_trade` raises: the commit fails, or the reply has an order id that is no number. */
  predicate Raises(trade: Trade, asked: Asked) {
    !IsTerminal(trade.status) &&
    match GetOrder(asked.reply)
    case LookupBroke => true
    case CouldNotAsk(_) => false
    case _ => asked.commitFails
  }

  datatype Summary = Summary(checked: nat, changed: nat, same: nat)

  /** How a run over a batch ends; `raised` when an exception cut it short. */
  datatype Batch = Batch(rows: Table, summary: Summary, raised: bool)

  function Count(s: Summary, changes: bool): Summary {
    if changes then Summary(s.checked + 1, s.changed + 1, s.same)
    else Summary(s.checked + 1, s.changed, s.same + 1)
  }

  /** `reconcile_pending_trades` on the trades it loaded. */
  function ReconcileAll(rows: Table, ids: seq<TradeId>, replies: Replies): Batch
    requires forall i :: 0 <= i < |ids| ==> ids[i] in rows
  {
    if ids == [] then Batch(rows, Summary(0, 0, 0), false)
    else
      var before := ReconcileAll(rows, ids[..|ids| - 1], replies);
      var id := ids[|ids| - 1];
      if before.raised then before
      else if Raises(rows[id], replies(id)) then before.(raised := true)
      else
        var after := Learned(rows[id], replies(id));
        Batch(before.rows[id := after], Count(before.summary, after.status != rows[id].status), false)
  }

  /** The table after `reconcile_trade` on a loaded copy, current or not: it looks at the copy's status
      alone, and a conclusive or live answer is committed over whatever the row holds by then. */
  function Recorded(rows: Table, trade: Trade, asked: Asked): Table
    requires trade.id in rows
  {
    if IsTerminal(trade.status) || asked.commitFails then rows
    else match GetOrder(asked.reply)
         case Found(order) => Write(rows, trade, Resolved(trade, Some(order)))
         case NoSuchOrder => Write(rows, trade, Resolved(trade, None))
         case _ => rows
  }

  lemma RecordedOverCurrent(rows: Table, trade: Trade, asked: Asked)
    requires trade.id in rows && rows[trade.id] == trade
    ensures Recorded(rows, trade, asked) == rows[trade.id := Learned(trade, asked)]
  {}

  /** Any copy, however old, is reconciled alike: what it learned is committed column by column over whatever
      the row holds by then, so a column it did not change keeps what others have written meanwhile. */
  lemma RecordedIsCommitOfLearned(rows: Table, trade: Trade, asked: Asked)
    requires trade.id in rows
    ensures Recorded(rows, trade, asked) == Write(rows, trade, Learned(trade, asked))
  {}

  /** An exception leaves the reconciliation of an open trade exactly when an order's id is no number, or there
      was something to commit and that failed; a query that could not be made never raises. */
  lemma RaisesExactly(trade: Trade, asked: Asked)
    ensures var reply := asked.reply;
      Raises(trade, asked) <==>
        && !IsTerminal(trade.status)
        && (|| (reply.Response? && reply.statusCode < 400 && reply.body.Object? && reply.body.orderId.NotAnInt?)
            || (asked.commitFails && (ReportsOrder(reply) || ReportsAbsence(reply))))
  {}

  // ---------------------------------------------------------------- which trades a run selects

  function Eligible(rows: Table, cutoff: int): set<TradeId> {
    set id | id in rows && Reconcilable(rows[id], cutoff)
  }

  predicate StillOpen(status: TradeStatus) { status in {Pending, Unknown, New, PartiallyFilled} }

  /** Eligible are exactly the trades in one of the four open statuses that were created before the cutoff,
      submitted or not. */
  lemma EligibleExactly(rows: Table, cutoff: int)
    ensures forall id :: id in Eligible(rows, cutoff) <==>
              id in rows && StillOpen(rows[id].status) && rows[id].createdAt < cutoff
    ensures forall id :: id in rows ==> (StillOpen(rows[id].status) <==> !IsTerminal(rows[id].status))
  {}

  /** A result of `find_reconcilable_trades`: oldest first, at most `limit`; trades created at the same
      moment may come in any order. */
  predicate IsBatch(rows: Table, cutoff: int, limit: nat, ids: seq<TradeId>) {
    && |ids| == Min(limit, |Eligible(rows, cutoff)|)
    && (forall i :: 0 <= i < |ids| ==> ids[i] in Eligible(rows, cutoff))
    && (forall i, j :: 0 <= i < j < |ids| ==> ids[i] != ids[j])
    && (forall i, j :: 0 <= i < j < |ids| ==> rows[ids[i]].createdAt <= rows[ids[j]].createdAt)
    && (forall i, id :: 0 <= i < |ids| && id in Eligible(rows, cutoff) && id !in ids ==>
          rows[ids[i]].createdAt <= rows[id].createdAt)
  }

  // ---------------------------------------------------------------- what a run does

  /** How many trades are dealt with before an exception, if any. */
  function Reached(rows: Table, ids: seq<TradeId>, replies: Replies): (k: nat)
    requires forall i :: 0 <= i < |ids| ==> ids[i] in rows
    ensures k <= |ids|
    ensures forall i :: 0 <= i < k ==> !Raises(rows[ids[i]], replies(ids[i]))
    ensures k < |ids| ==> Raises(rows[ids[k]], replies(ids[k]))
  {
    if ids == [] then 0
    else
      var k := Reached(rows, ids[..|ids| - 1], replies);
      var last := ids[|ids| - 1];
      if k == |ids| - 1 && !Raises(rows[last], replies(last)) then |ids| else k
  }

  predicate Changes(rows: Table, id: TradeId, replies: Replies)
    requires id in rows
  {
    Learned(rows[id], replies(id)).status != rows[id].status
  }

  function Changed(rows: Table, ids: seq<TradeId>, replies: Replies): set<TradeId>
    requires forall i :: 0 <= i < |ids| ==> ids[i] in rows
  {
    set id | id in ids && Changes(rows, id, replies)
  }

  /** An exception ends the run: later trades are not reached. */
  lemma {:induction false} RaisedEndsRun(rows: Table, ids: seq<TradeId>, replies: Replies, k: nat)
    requires forall i :: 0 <= i < |ids| ==> ids[i] in rows
    requires k <= |ids| && ReconcileAll(rows, ids[..k], replies).raised
    ensures ReconcileAll(rows, ids, replies) == ReconcileAll(rows, ids[..k], replies)
    decreases |ids| - k
  {
    if k == |ids| {
      assert ids[..k] == ids;
    } else {
      assert ids[..k + 1][..k] == ids[..k];
      RaisedEndsRun(rows, ids, replies, k + 1);
    }
  }

  /** Trades a run has not come to yet are as they were loaded. */
  lemma NotYetReached(rows: Table, ids: seq<TradeId>, replies: Replies, k: nat)
    requires forall i :: 0 <= i < |ids| ==> ids[i] in rows
    requires forall i, j :: 0 <= i < j < |ids| ==> ids[i] != ids[j]
    requires k < |ids|
    ensures var b := ReconcileAll(rows, ids[..k], replies); ids[k] in b.rows && b.rows[ids[k]] == rows[ids[k]]
  {
    BatchRows(rows, ids[..k], replies);
  }

  /** One more trade of a run: reconcile the row as it stands and count it. */
  lemma OneMoreTrade(rows: Table, ids: seq<TradeId>, replies: Replies, k: nat)
    requires forall i :: 0 <= i < |ids| ==> ids[i] in rows
    requires forall i, j :: 0 <= i < j < |ids| ==> ids[i] != ids[j]
    requires k < |ids| && Filed(rows) && !ReconcileAll(rows, ids[..k], replies).raised
    ensures var b := ReconcileAll(rows, ids[..k], replies); var asked := replies(ids[k]);
      && ids[k] in b.rows
      && var trade := b.rows[ids[k]];
      && trade.id == ids[k]
      && ReconcileAll(rows, ids[..k + 1], replies) ==
           Batch(Recorded(b.rows, trade, asked),
                 if Raises(trade, asked) then b.summary
                 else Count(b.summary, Learned(trade, asked).status != trade.status),
                 Raises(trade, asked))
  {
    NotYetReached(rows, ids, replies, k);
    assert ids[..k + 1][..k] == ids[..k];
    var b := ReconcileAll(rows, ids[..k], replies);
    RecordedOverCurrent(b.rows, b.rows[ids[k]], replies(ids[k]));
    if Raises(rows[ids[k]], replies(ids[k])) {
      RaisingChangesNothing(b.rows, rows[ids[k]], replies(ids[k]));
    }
  }

  lemma RaisingChangesNothing(rows: Table, trade: Trade, asked: Asked)
    requires trade.id in rows && Raises(trade, asked)
    ensures Recorded(rows, trade, asked) == rows
  {}

  lemma BatchKeepsFiled(rows: Table, ids: seq<TradeId>, replies: Replies)
    requires forall i :: 0 <= i < |ids| ==> ids[i] in rows
    requires forall i, j :: 0 <= i < j < |ids| ==> ids[i] != ids[j]
    requires Filed(rows)
    ensures Filed(ReconcileAll(rows, ids, replies).rows)
  {
    BatchRows(rows, ids, replies);
    forall id | id in rows
      ensures SameOrder(Learned(rows[id], replies(id)), rows[id])
    {
      LearningKeepsOrder(rows[id], replies(id));
    }
  }

  lemma LearningKeepsOrder(trade: Trade, asked: Asked)
    ensures SameOrder(Learned(trade, asked), trade) && Learned(trade, asked).submitted == trade.submitted
  {}

  lemma PrefixOfEarlier(rows: Table, ids: seq<TradeId>, replies: Replies)
    requires ids != [] && forall i :: 0 <= i < |ids| ==> ids[i] in rows
    ensures var k := Reached(rows, ids, replies);
      var earlier := ids[..|ids| - 1]; var j := Reached(rows, earlier, replies);
      if k == |ids| then ids[..k] == earlier + [ids[|ids| - 1]] && earlier[..j] == earlier
      else ids[..k] == earlier[..j]
  {}

  /** A run in one piece: the trades before the first exception get what the exchange answered about
      them, and all other rows stay. */
  lemma {:induction false} BatchRows(rows: Table, ids: seq<TradeId>, replies: Replies)
    requires forall i :: 0 <= i < |ids| ==> ids[i] in rows
    requires forall i, j :: 0 <= i < j < |ids| ==> ids[i] != ids[j]
    ensures var b := ReconcileAll(rows, ids, replies); var done := ids[..Reached(rows, ids, replies)];
      && b.rows.Keys == rows.Keys
      && (b.raised <==> |done| < |ids|)
      && (forall id :: id in rows ==> b.rows[id] == if id in done then Learned(rows[id], replies(id)) else rows[id])
  {
    if ids != [] {
      BatchRows(rows, ids[..|ids| - 1], replies);
      PrefixOfEarlier(rows, ids, replies);
    }
  }

  /** The summary counts exactly the trades dealt with and, among them, those whose status changed. */
  lemma {:induction false} BatchCounts(rows: Table, ids: seq<TradeId>, replies: Replies)
    requires forall i :: 0 <= i < |ids| ==> ids[i] in rows
    requires forall i, j :: 0 <= i < j < |ids| ==> ids[i] != ids[j]
    ensures var b := ReconcileAll(rows, ids, replies); var done := ids[..Reached(rows, ids, replies)];
      && (b.raised <==> |done| < |ids|)
      && b.summary.checked == |done|
      && b.summary.changed == |Changed(rows, done, replies)|
      && b.summary.changed + b.summary.same == b.summary.checked
  {
    if ids != [] {
      BatchCounts(rows, ids[..|ids| - 1], replies);
      PrefixOfEarlier(rows, ids, replies);
      if Reached(rows, ids, replies) == |ids| {
        ChangedGrows(rows, ids[..|ids| - 1], ids[|ids| - 1], replies);
      }
    }
  }

  lemma ChangedGrows(rows: Table, ids: seq<TradeId>, id: TradeId, replies: Replies)
    requires id in rows && id !in ids && forall i :: 0 <= i < |ids| ==> ids[i] in rows
    ensures |Changed(rows, ids + [id], replies)| ==
              |Changed(rows, ids, replies)| + if Changes(rows, id, replies) then 1 else 0
  {
    if Changes(rows, id, replies) {
      assert Changed(rows, ids + [id], replies) == Changed(rows, ids, replies) + {id};
    } else {
      assert Changed(rows, ids + [id], replies) == Changed(rows, ids, replies);
    }
  }

  // ---------------------------------------------------------------- the main results

  predicate NoneRaises(rows: Table, ids: seq<TradeId>, replies: Replies)
    requires forall i :: 0 <= i < |ids| ==> ids[i] in rows
  {
    forall i :: 0 <= i < |ids| ==> !Raises(rows[ids[i]], replies(ids[i]))
  }

  /** Conservation: a run always has checked = changed + unchanged, and checked is the whole selection,
      min(limit, eligible), exactly when no trade in it raises. */
  lemma BatchConserves(rows: Table, cutoff: int, limit: nat, ids: seq<TradeId>, replies: Replies)
    requires IsBatch(rows, cutoff, limit, ids)
    ensures var b := ReconcileAll(rows, ids, replies);
      && b.summary.checked == b.summary.changed + b.summary.same
      && (b.summary.checked == Min(limit, |Eligible(rows, cutoff)|) <==> NoneRaises(rows, ids, replies))
      && (b.raised <==> !NoneRaises(rows, ids, replies))
  {
    BatchCounts(rows, ids, replies);
  }

  /** One reply whose order id is no number cuts a run short: nothing is checked although there is
      something to check. */
  lemma RunCanBeCutShort(rows: Table, cutoff: int, limit: nat, ids: seq<TradeId>)
    requires IsBatch(rows, cutoff, limit, ids) && ids != []
    ensures var unreadable := Response(200, Object(NotAnInt, NEW, Finite(false, 0, 0), Finite(false, 0, 0), NoCode));
      var replies: Replies := _ => Asked(unreadable, false);
      var b := ReconcileAll(rows, ids, replies);
      b.raised && b.summary.checked == 0 && Min(limit, |Eligible(rows, cutoff)|) > 0
  {
    var unreadable := Response(200, Object(NotAnInt, NEW, Finite(false, 0, 0), Finite(false, 0, 0), NoCode));
    var replies: Replies := _ => Asked(unreadable, false);
    assert Raises(rows[ids[0]], replies(ids[0]));
    BatchCounts(rows, ids, replies);
  }

  /** The table once every trade of a set has been reconciled. */
  function AllReconciled(rows: Table, ids: set<TradeId>, replies: Replies): Table {
    map id | id in rows :: if id in ids then Learned(rows[id], replies(id)) else rows[id]
  }

  lemma WholeBatch(rows: Table, ids: seq<TradeId>, replies: Replies)
    requires forall i :: 0 <= i < |ids| ==> ids[i] in rows
    requires forall i, j :: 0 <= i < j < |ids| ==> ids[i] != ids[j]
    requires NoneRaises(rows, ids, replies)
    ensures ReconcileAll(rows, ids, replies).rows == AllReconciled(rows, Elements(ids), replies)
  {
    BatchRows(rows, ids, replies);
    assert ids[..|ids|] == ids;
  }

  /** Any order of a batch in which nothing raises gives the same table. */
  lemma BatchOrderIrrelevant(rows: Table, ids: seq<TradeId>, other: seq<TradeId>, replies: Replies)
    requires forall i :: 0 <= i < |ids| ==> ids[i] in rows
    requires forall id :: id in ids <==> id in other
    requires forall i, j :: 0 <= i < j < |ids| ==> ids[i] != ids[j]
    requires forall i, j :: 0 <= i < j < |other| ==> other[i] != other[j]
    requires NoneRaises(rows, ids, replies)
    ensures forall i :: 0 <= i < |other| ==> other[i] in rows
    ensures NoneRaises(rows, other, replies)
    ensures ReconcileAll(rows, ids, replies).rows == ReconcileAll(rows, other, replies).rows
  {
    assert forall i :: 0 <= i < |other| ==> other[i] in other;
    assert Elements(ids) == Elements(other);
    WholeBatch(rows, ids, replies);
    WholeBatch(rows, other, replies);
  }

  /** Asking again and getting the same answer changes nothing. */
  lemma ReconcilingAgainChangesNothing(trade: Trade, asked: Asked)
    ensures Learned(Learned(trade, asked), asked) == Learned(trade, asked)
  {}

  /** Idempotence: against an unchanged exchange, repeating a run, over any selection of the trades it
      dealt with, leaves the table as it was. */
  lemma BatchIsIdempotent(rows: Table, ids: seq<TradeId>, again: seq<TradeId>, replies: Replies)
    requires forall i :: 0 <= i < |ids| ==> ids[i] in rows
    requires forall i, j :: 0 <= i < j < |ids| ==> ids[i] != ids[j]
    requires forall i, j :: 0 <= i < j < |again| ==> again[i] != again[j]
    requires forall id :: id in again ==> id in ids[..Reached(rows, ids, replies)]
    ensures var once := ReconcileAll(rows, ids, replies).rows;
      (forall i :: 0 <= i < |again| ==> again[i] in once) && ReconcileAll(once, again, replies).rows == once
  {
    BatchRows(rows, ids, replies);
    var once := ReconcileAll(rows, ids, replies).rows;
    forall i | 0 <= i < |again|
      ensures again[i] in once && Learned(once[again[i]], replies(again[i])) == once[again[i]]
    {
      assert again[i] in again;
      ReconcilingAgainChangesNothing(rows[again[i]], replies(again[i]));
    }
    NothingNew(once, again, replies);
  }

  lemma NothingNew(rows: Table, ids: seq<TradeId>, replies: Replies)
    requires forall i :: 0 <= i < |ids| ==> ids[i] in rows && Learned(rows[ids[i]], replies(ids[i])) == rows[ids[i]]
    requires forall i, j :: 0 <= i < j < |ids| ==> ids[i] != ids[j]
    ensures ReconcileAll(rows, ids, replies).rows == rows
  {
    BatchRows(rows, ids, replies);
  }

  /** The reply says of the order what is `known` of it, or says nothing. */
  predicate Reports(known: Option<OrderResult>, reply: Wire) {
    match GetOrder(reply)
    case Found(order) => known == Some(order)
    case NoSuchOrder => known == None
    case _ => true
  }

  /** The attempt records something: the trade is open, the reply tells, and the commit goes through. */
  predicate Informs(trade: Trade, asked: Asked) {
    && !IsTerminal(trade.status) && !asked.commitFails
    && (GetOrder(asked.reply).Found? || GetOrder(asked.reply).NoSuchOrder?)
  }

  /** Of two truthful attempts, whatever became of each, only the first that records something counts;
      so their order does not matter. */
  lemma OneAttemptCounts(trade: Trade, first: Asked, second: Asked, known: Option<OrderResult>)
    requires Reports(known, first.reply) && Reports(known, second.reply)
    ensures Learned(Learned(trade, first), second) ==
              if Informs(trade, first) then Learned(trade, first) else Learned(trade, second)
    ensures Learned(Learned(trade, first), second) == Learned(Learned(trade, second), first)
  {
    if Informs(trade, first) {
      ReconcilingAgainChangesNothing(trade, first);
    }
  }

  /** Idempotence with replies that differ: after a run, a second one over any of the trades it dealt with,
      about the same orders, with timeouts, failed commits and all, changes no trade the first recorded
      something about, and leaves every other as if it had been reconciled only now. */
  lemma SecondRunAddsOnlyTheMissing(rows: Table, ids: seq<TradeId>, again: seq<TradeId>,
                                    replies: Replies, later: Replies, known: TradeId -> Option<OrderResult>)
    requires forall i :: 0 <= i < |ids| ==> ids[i] in rows
    requires forall i, j :: 0 <= i < j < |ids| ==> ids[i] != ids[j]
    requires forall i, j :: 0 <= i < j < |again| ==> again[i] != again[j]
    requires forall id :: id in again ==> id in ids[..Reached(rows, ids, replies)]
    requires forall id :: id in again ==> Reports(known(id), replies(id).reply) && Reports(known(id), later(id).reply)
    ensures var once := ReconcileAll(rows, ids, replies).rows;
      && (forall i :: 0 <= i < |again| ==> again[i] in once)
      && var twice := ReconcileAll(once, again, later).rows; var done := again[..Reached(once, again, later)];
         && twice.Keys == once.Keys == rows.Keys
         && forall id :: id in rows ==>
              twice[id] ==
                if id in done && !Informs(rows[id], replies(id)) then Learned(rows[id], later(id)) else once[id]
  {
    BatchRows(rows, ids, replies);
    var once := ReconcileAll(rows, ids, replies).rows;
    assert forall i :: 0 <= i < |again| ==> again[i] in again;
    BatchRows(once, again, later);
    forall id | id in again
      ensures id in rows && Learned(once[id], later(id)) ==
                if Informs(rows[id], replies(id)) then once[id] else Learned(rows[id], later(id))
    {
      OneAttemptCounts(rows[id], replies(id), later(id), known(id));
    }
  }

  /** The exchange's answer about every trade of the batch settles it, and every commit goes through. */
  predicate AllSettle(ids: seq<TradeId>, replies: Replies) {
    forall i :: 0 <= i < |ids| ==> ConclusiveLookup(replies(ids[i]).reply) && !replies(ids[i]).commitFails
  }

  lemma SettlesOrStays(trade: Trade, asked: Asked, cutoff: int)
    requires Reconcilable(trade, cutoff)
    ensures SameOrder(Learned(trade, asked), trade)
    ensures Reconcilable(Learned(trade, asked), cutoff) <==> asked.commitFails || !ConclusiveLookup(asked.reply)
    ensures !asked.commitFails && ConclusiveLookup(asked.reply) ==>
              !Raises(trade, asked) && IsTerminal(Learned(trade, asked).status)
  {
    ReconciliationNeverGuesses(trade, asked.reply, asked.commitFails);
  }

  /** Whatever the answers, a run settles exactly the trades it got to whose answer was conclusive and
      committed: all others it selected stay eligible. */
  lemma BatchSettlesExactlyTheConclusive(rows: Table, cutoff: int, limit: nat, ids: seq<TradeId>, replies: Replies)
    requires IsBatch(rows, cutoff, limit, ids)
    ensures var b := ReconcileAll(rows, ids, replies); var done := ids[..Reached(rows, ids, replies)];
      forall id :: id in Eligible(rows, cutoff) ==>
        (id in Eligible(b.rows, cutoff) <==>
           !(id in done && ConclusiveLookup(replies(id).reply) && !replies(id).commitFails))
  {
    BatchRows(rows, ids, replies);
    forall id | id in Eligible(rows, cutoff)
      ensures Reconcilable(Learned(rows[id], replies(id)), cutoff) <==>
                replies(id).commitFails || !ConclusiveLookup(replies(id).reply)
    {
      SettlesOrStays(rows[id], replies(id), cutoff);
    }
  }

  /** Progress: when every answer settles its trade, a run takes exactly its selection, min(limit,
      eligible) trades, out of the eligible ones; each of them is terminal and none else is touched. */
  lemma BatchProgresses(rows: Table, cutoff: int, limit: nat, ids: seq<TradeId>, replies: Replies)
    requires Filed(rows) && IsBatch(rows, cutoff, limit, ids) && AllSettle(ids, replies)
    ensures var b := ReconcileAll(rows, ids, replies);
      && !b.raised && b.summary == Summary(|ids|, |ids|, 0) && b.rows.Keys == rows.Keys
      && Filed(b.rows)
      && Eligible(b.rows, cutoff) == Eligible(rows, cutoff) - Elements(ids)
      && (forall id :: id in rows ==> if id in ids then IsTerminal(b.rows[id].status) else b.rows[id] == rows[id])
  {
    forall i | 0 <= i < |ids|
      ensures !Raises(rows[ids[i]], replies(ids[i]))
    {
      SettlesOrStays(rows[ids[i]], replies(ids[i]), cutoff);
    }
    BatchCounts(rows, ids, replies);
    assert ids[..|ids|] == ids;
    DistinctElements(ids);
    WholeBatch(rows, ids, replies);
    SettlingAll(rows, cutoff, ids, replies);
  }

  lemma SettlingAll(rows: Table, cutoff: int, ids: seq<TradeId>, replies: Replies)
    requires forall i :: 0 <= i < |ids| ==> ids[i] in rows
    requires Filed(rows) && AllSettle(ids, replies) && forall i :: 0 <= i < |ids| ==> ids[i] in Eligible(rows, cutoff)
    ensures Changed(rows, ids, replies) == Elements(ids)
    ensures var end := AllReconciled(rows, Elements(ids), replies);
      && Filed(end) && Eligible(end, cutoff) == Eligible(rows, cutoff) - Elements(ids)
      && forall id :: id in ids ==> IsTerminal(end[id].status)
  {
    forall id | id in ids
      ensures SameOrder(Learned(rows[id], replies(id)), rows[id])
      ensures IsTerminal(Learned(rows[id], replies(id)).status) && !IsTerminal(rows[id].status)
    {
      SettlesOrStays(rows[id], replies(id), cutoff);
    }
  }

  // ---------------------------------------------------------------- repeated runs

  /** One run: the batch it selected and the answers it got. */
  datatype Sweep = Sweep(ids: seq<TradeId>, replies: Replies)

  /** The sweeps can follow one another, each selecting a batch of what is eligible by then and
      getting answers that settle it. */
  predicate Sweeps(rows: Table, cutoff: int, limit: nat, sweeps: seq<Sweep>)
    decreases |sweeps|
  {
    sweeps == [] ||
    (IsBatch(rows, cutoff, limit, sweeps[0].ids) && AllSettle(sweeps[0].ids, sweeps[0].replies) &&
     Sweeps(ReconcileAll(rows, sweeps[0].ids, sweeps[0].replies).rows, cutoff, limit, sweeps[1..]))
  }

  function Swept(rows: Table, cutoff: int, limit: nat, sweeps: seq<Sweep>): Table
    requires Sweeps(rows, cutoff, limit, sweeps)
    decreases |sweeps|
  {
    if sweeps == [] then rows
    else Swept(ReconcileAll(rows, sweeps[0].ids, sweeps[0].replies).rows, cutoff, limit, sweeps[1..])
  }

  /** Runs finish with a bound: k runs leave exactly n - k * limit of n eligible trades, none of them once
      k * limit reaches n; whatever is no longer eligible is terminal, and no other row is touched. */
  lemma {:induction false} SweepsFinish(rows: Table, cutoff: int, limit: nat, sweeps: seq<Sweep>)
    requires Filed(rows) && Sweeps(rows, cutoff, limit, sweeps)
    ensures var end := Swept(rows, cutoff, limit, sweeps);
      && end.Keys == rows.Keys
      && |Eligible(end, cutoff)| == Left(|Eligible(rows, cutoff)|, limit, |sweeps|)
      && (forall id :: id in rows && end[id] != rows[id] ==> id in Eligible(rows, cutoff) && IsTerminal(end[id].status))
      && (forall id :: id in Eligible(rows, cutoff) ==> id in Eligible(end, cutoff) || IsTerminal(end[id].status))
    decreases |sweeps|
  {
    if sweeps == [] {
      LeftAtFirst(|Eligible(rows, cutoff)|, limit);
    } else {
      var next := ReconcileAll(rows, sweeps[0].ids, sweeps[0].replies).rows;
      SweepShrinks(rows, cutoff, limit, sweeps[0]);
      SweepsFinish(next, cutoff, limit, sweeps[1..]);
      LessOneRound(|Eligible(rows, cutoff)|, limit, |sweeps|);
    }
  }

  lemma SweepShrinks(rows: Table, cutoff: int, limit: nat, sweep: Sweep)
    requires Filed(rows) && IsBatch(rows, cutoff, limit, sweep.ids) && AllSettle(sweep.ids, sweep.replies)
    ensures var next := ReconcileAll(rows, sweep.ids, sweep.replies).rows; var before := Eligible(rows, cutoff);
      && Filed(next) && next.Keys == rows.Keys
      && Eligible(next, cutoff) <= before && |Eligible(next, cutoff)| == |before| - Min(limit, |before|)
      && (forall id :: id in rows ==> next[id] == rows[id] || (id in before && IsTerminal(next[id].status)))
      && (forall id :: id in before && id !in Eligible(next, cutoff) ==> IsTerminal(next[id].status))
  {
    BatchProgresses(rows, cutoff, limit, sweep.ids, sweep.replies);
    DistinctElements(sweep.ids);
    assert Elements(sweep.ids) <= Eligible(rows, cutoff);
  }

  lemma LessOneRound(n: nat, size: nat, k: nat)
    requires k > 0
    ensures Left(n - Min(size, n), size, k - 1) == Left(n, size, k)
  {
    assert k * size == (k - 1) * size + size;
    if n <= size && k > 1 {
      assert (k - 1) * size >= 0;
    }
  }

  /** Every table has a batch to select. */
  lemma BatchExists(rows: Table, cutoff: int, limit: nat) returns (ids: seq<TradeId>)
    requires Filed(rows)
    ensures IsBatch(rows, cutoff, limit, ids)
  {
    var all := OrderBy(rows, Eligible(rows, cutoff), OldestFirst);
    OrderByIsOrdered(rows, Eligible(rows, cutoff), OldestFirst);
    ids := all[..Min(limit, |all|)];
    PrefixIsBatch(rows, cutoff, limit, all, ids);
  }

  function OldestFirst(t: Trade): Rank { Rank(t.createdAt, t.id) }

  lemma PrefixIsBatch(rows: Table, cutoff: int, limit: nat, all: seq<TradeId>, ids: seq<TradeId>)
    requires Filed(rows) && Ordered(rows, all, OldestFirst) && |all| == |Eligible(rows, cutoff)|
    requires forall id :: id in all <==> id in Eligible(rows, cutoff)
    requires ids == all[..Min(limit, |all|)]
    ensures IsBatch(rows, cutoff, limit, ids)
  {
    assert forall i :: 0 <= i < |ids| ==> ids[i] == all[i] && all[i] in all;
    forall i, j | 0 <= i < j < |ids|
      ensures ids[i] != ids[j] && rows[ids[i]].createdAt <= rows[ids[j]].createdAt
    {
      assert Before(OldestFirst(rows[all[i]]), OldestFirst(rows[all[j]]));
    }
    forall i, id | 0 <= i < |ids| && id in Eligible(rows, cutoff) && id !in ids
      ensures rows[ids[i]].createdAt <= rows[id].createdAt
    {
      LeftOutIsYounger(rows, all, |ids|, i, id);
    }
  }

  lemma LeftOutIsYounger(rows: Table, all: seq<TradeId>, n: nat, i: nat, id: TradeId)
    requires Ordered(rows, all, OldestFirst) && i < n <= |all| && id in all && id !in all[..n]
    ensures id in rows && rows[all[i]].createdAt <= rows[id].createdAt
  {
    assert all == all[..n] + all[n..];
    var k :| 0 <= k < |all[n..]| && all[n..][k] == id;
    assert Before(OldestFirst(rows[all[i]]), OldestFirst(rows[all[n + k]]));
  }
}
