/** The two systems the services write to: the trades table with its UNIQUE indexes, as the session's
    statements see it (app/db/models.py), and the exchange. */
module Stores {
  import opened Wrappers
  import opened Models
  import opened BinanceClient
  import opened Trading
  import opened Protocol
  import opened Queries
  import opened Execution
  import opened Reconciliation

  class Database {
    var rows: Table
    var bySignal: map<string, TradeId>                // UNIQUE (signal_id)
    var byClientOrder: map<string, TradeId>           // UNIQUE (client_order_id)
    var nextId: TradeId

    ghost predicate Valid()
      reads this
    {
      && Filed(rows)
      && (forall id :: id in rows ==> id < nextId)
      && (forall id :: id in rows ==> rows[id].signalId in bySignal && bySignal[rows[id].signalId] == id)
      && (forall id :: id in rows ==>
            (rows[id].clientOrderId in byClientOrder && byClientOrder[rows[id].clientOrderId] == id))
      && (forall s :: s in bySignal ==> bySignal[s] in rows && rows[bySignal[s]].signalId == s)
      && (forall c :: c in byClientOrder ==> byClientOrder[c] in rows && rows[byClientOrder[c]].clientOrderId == c)
    }

    constructor ()
      ensures Valid() && rows == map[]
    {
      rows, bySignal, byClientOrder, nextId := map[], map[], map[], 0;
    }

    /** INSERT and COMMIT of a new row, which gets the next id; refused exactly when a UNIQUE index
        already holds its signal id or its client order id. */
    method Insert(draft: Trade) returns (id: Option<TradeId>)
      requires Valid()
      modifies this
      ensures Valid()
      ensures id.None? <==> Clashes(old(rows), draft.signalId, draft.clientOrderId)
      ensures id.None? ==> rows == old(rows)
      ensures id.Some? ==> id.value !in old(rows) && rows == old(rows)[id.value := draft.(id := id.value)]
    {
      if draft.signalId in bySignal || draft.clientOrderId in byClientOrder {
        id := None;
      } else {
        id := Some(nextId);
        rows := rows[nextId := draft.(id := nextId)];
        bySignal := bySignal[draft.signalId := nextId];
        byClientOrder := byClientOrder[draft.clientOrderId := nextId];
        nextId := nextId + 1;
      }
    }

    /** SELECT id WHERE signal_id = ... */
    method HolderOf(signalId: string) returns (holder: Option<TradeId>)
      requires Valid()
      ensures NamesHolder(rows, signalId, holder)
    {
      holder := if signalId in bySignal then Some(bySignal[signalId]) else None;
    }

    /** The claiming UPDATE and its COMMIT; the result is the number of rows changed. */
    method ClaimRow(id: TradeId) returns (rowcount: nat)
      requires Valid()
      modifies this`rows
      ensures Valid()
      ensures rows == Claim(old(rows), id)
      ensures rowcount == if Waits(old(rows), id) then 1 else 0
      ensures rowcount == 1 <==> id in old(rows) && old(rows)[id].status == Pending && !old(rows)[id].submitted
      ensures rows == if rowcount == 1 then old(rows)[id := old(rows)[id].(submitted := true)] else old(rows)
    {
      if id in rows && Claimable(rows[id]) {
        rows := rows[id := rows[id].(submitted := true)];
        rowcount := 1;
      } else {
        rowcount := 0;
      }
    }

    /** COMMIT of an edited copy, or its failure and rollback. */
    method Commit(loaded: Trade, edited: Trade, fails: bool) returns (ok: bool)
      requires Valid() && loaded.id in rows
      modifies this`rows
      ensures Valid()
      ensures ok <==> !fails
      ensures rows == if fails then old(rows) else Write(old(rows), loaded, edited)
    {
      if !fails {
        rows := Write(rows, loaded, edited);
      }
      ok := !fails;
    }

    /** SELECT id WHERE status = PENDING AND submitted_at IS NULL ORDER BY id LIMIT limit. */
    method SelectUnsubmitted(limit: nat) returns (ids: seq<TradeId>)
      requires Valid()
      ensures ids == ResumeIds(rows, limit)
    {
      ids := [];
      ghost var all: seq<TradeId> := [];
      for i := 0 to nextId
        invariant forall j, k :: 0 <= j < k < |all| ==> all[j] < all[k]
        invariant forall k :: 0 <= k < |all| ==> all[k] < i && all[k] in rows
        invariant forall id :: id in all <==> id < i && id in NeverSubmitted(rows)
        invariant ids == Page(all, limit, 0)
      {
        if i in rows && Claimable(rows[i]) {
          if |ids| < limit { ids := ids + [i]; }
          all := all + [i];
        }
      }
      IncreasingIsOrdered(rows, all);
      OrderIsUnique(rows, NeverSubmitted(rows), SmallestId, all);
    }

    /** The oldest of some rows. */
    method Oldest(ids: set<TradeId>) returns (oldest: TradeId)
      requires ids != {} && ids <= rows.Keys
      ensures oldest in ids && forall id :: id in ids ==> rows[oldest].createdAt <= rows[id].createdAt
    {
      oldest :| oldest in ids;
      var rest := ids - {oldest};
      while rest != {}
        invariant rest <= ids && oldest in ids
        invariant forall id :: id in ids - rest ==> rows[oldest].createdAt <= rows[id].createdAt
        decreases |rest|
      {
        var id :| id in rest;
        rest := rest - {id};
        if rows[id].createdAt < rows[oldest].createdAt { oldest := id; }
      }
    }

    /** SELECT ... WHERE reconcilable AND created_at < cutoff ORDER BY created_at LIMIT limit. Which of
        the trades created at the same moment come first is left open. */
    method SelectReconcilable(cutoff: int, limit: nat) returns (ids: seq<TradeId>)
      requires Valid()
      ensures IsBatch(rows, cutoff, limit, ids)
      ensures forall id :: id in ids ==> id in rows && StillOpen(rows[id].status) && rows[id].createdAt < cutoff
      ensures forall i, j :: 0 <= i < j < |ids| ==> rows[ids[i]].createdAt <= rows[ids[j]].createdAt
      ensures forall i, id :: 0 <= i < |ids| && id in Eligible(rows, cutoff) && id !in ids ==>
                rows[ids[i]].createdAt <= rows[id].createdAt
    {
      EligibleExactly(rows, cutoff);
      ids := [];
      var rest := set id | id in rows && Reconcilable(rows[id], cutoff);
      while |ids| < limit && rest != {}
        invariant |ids| <= limit && |ids| + |rest| == |Eligible(rows, cutoff)|
        invariant forall id :: id in Eligible(rows, cutoff) <==> id in ids || id in rest
        invariant OldestTaken(rows, ids, rest)
        decreases |rest|
      {
        var id := Oldest(rest);
        TakeOldest(rows, ids, rest, id);
        ids := ids + [id];
        rest := rest - {id};
      }
    }
  }

  /** `ids` are distinct, in order of creation, and none is younger than what is left. */
  predicate OldestTaken(rows: Table, ids: seq<TradeId>, rest: set<TradeId>) {
    && (forall i :: 0 <= i < |ids| ==> ids[i] in rows && ids[i] !in rest)
    && rest <= rows.Keys
    && (forall i, j :: 0 <= i < j < |ids| ==> ids[i] != ids[j])
    && (forall i, j :: 0 <= i < j < |ids| ==> rows[ids[i]].createdAt <= rows[ids[j]].createdAt)
    && (forall i, id :: 0 <= i < |ids| && id in rest ==> rows[ids[i]].createdAt <= rows[id].createdAt)
  }

  lemma TakeOldest(rows: Table, ids: seq<TradeId>, rest: set<TradeId>, id: TradeId)
    requires OldestTaken(rows, ids, rest)
    requires id in rest && forall other :: other in rest ==> rows[id].createdAt <= rows[other].createdAt
    ensures OldestTaken(rows, ids + [id], rest - {id})
  {}

  lemma IncreasingIsOrdered(rows: Table, ids: seq<TradeId>)
    requires Filed(rows) && forall i :: 0 <= i < |ids| ==> ids[i] in rows
    requires forall i, j :: 0 <= i < j < |ids| ==> ids[i] < ids[j]
    ensures Ordered(rows, ids, SmallestId)
  {}

  class Exchange {
    var orders: map<string, Order>
    var calls: seq<OrderRequest>                      // POST /order, in order
    var queries: seq<string>                          // GET /order, in order

    constructor ()
      ensures orders == map[] && calls == [] && queries == []
    {
      orders, calls, queries := map[], [], [];
    }

    /** POST /order: what lands there, how orders move from then until the next call, and the reply that
        comes back are the exchange's and the network's. */
    method Place(request: OrderRequest, landing: Option<OrderStatus>, moves: seq<Move>, reply: Wire)
      returns (placement: Placement)
      modifies this`orders, this`calls
      ensures calls == old(calls) + [request] && orders == Moved(Land(old(orders), request, landing), moves)
      ensures placement == PlaceMarketOrder(request.dryRun, reply)
    {
      calls := calls + [request];
      orders := Moved(Land(orders, request, landing), moves);
      placement := PlaceMarketOrder(request.dryRun, reply);
    }

    /** GET /order by client order id. */
    method Ask(clientOrderId: string, reply: Wire) returns (lookup: Lookup)
      modifies this`queries
      ensures queries == old(queries) + [clientOrderId] && lookup == GetOrder(reply)
    {
      queries := queries + [clientOrderId];
      lookup := GetOrder(reply);
    }
  }
}
