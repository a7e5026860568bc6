/** SELECT ... WHERE ... ORDER BY ... LIMIT / OFFSET over the committed table: the listing behind
    GET /trades (app/services/trading_service.py) and the selection made by `resume_pending`
    (app/services/execution_queue.py). */
module Queries {
  import opened Wrappers
  import opened Models
  import opened Trading

  /** A sort key, smallest first; ties on `major` are broken by `minor`. */
  datatype Rank = Rank(major: int, minor: int)

  predicate Before(a: Rank, b: Rank) {
    a.major < b.major || (a.major == b.major && a.minor < b.minor)
  }

  type SortKey = Trade -> Rank

  /** No two rows of `ids` share a sort key. */
  predicate Ranked(rows: Table, ids: set<TradeId>, key: SortKey) {
    ids <= rows.Keys && forall a, b :: a in ids && b in ids && a != b ==> key(rows[a]) != key(rows[b])
  }

  predicate IsFirst(rows: Table, ids: set<TradeId>, key: SortKey, first: TradeId)
    requires ids <= rows.Keys
  {
    first in ids && forall a :: a in ids && a != first ==> Before(key(rows[first]), key(rows[a]))
  }

  lemma {:induction false} FirstExists(rows: Table, ids: set<TradeId>, key: SortKey)
    requires Ranked(rows, ids, key) && ids != {}
    ensures exists first :: IsFirst(rows, ids, key, first)
    decreases |ids|
  {
    var a :| a in ids;
    var rest := ids - {a};
    if rest == {} {
      assert ids == {a};
      assert IsFirst(rows, ids, key, a);
    } else {
      FirstExists(rows, rest, key);
      var b :| IsFirst(rows, rest, key, b);
      assert IsFirst(rows, ids, key, if Before(key(rows[a]), key(rows[b])) then a else b);
    }
  }

  /** ORDER BY: the rows of `ids`, first to last. */
  ghost function OrderBy(rows: Table, ids: set<TradeId>, key: SortKey): (r: seq<TradeId>)
    requires Ranked(rows, ids, key)
    ensures |r| == |ids|
    ensures forall id :: id in r <==> id in ids
    decreases |ids|
  {
    if ids == {} then []
    else
      FirstExists(rows, ids, key);
      var first :| IsFirst(rows, ids, key, first);
      [first] + OrderBy(rows, ids - {first}, key)
  }

  predicate Ordered(rows: Table, r: seq<TradeId>, key: SortKey) {
    && (forall i :: 0 <= i < |r| ==> r[i] in rows)
    && (forall i, j :: 0 <= i < j < |r| ==> Before(key(rows[r[i]]), key(rows[r[j]])))
  }

  lemma OrderedFromFirst(rows: Table, first: TradeId, rest: seq<TradeId>, key: SortKey)
    requires first in rows && Ordered(rows, rest, key)
    requires forall i :: 0 <= i < |rest| ==> Before(key(rows[first]), key(rows[rest[i]]))
    ensures Ordered(rows, [first] + rest, key)
  {}

  lemma {:induction false} OrderByIsOrdered(rows: Table, ids: set<TradeId>, key: SortKey)
    requires Ranked(rows, ids, key)
    ensures Ordered(rows, OrderBy(rows, ids, key), key)
    decreases |ids|
  {
    if ids != {} {
      var r := OrderBy(rows, ids, key);
      var rest := OrderBy(rows, ids - {r[0]}, key);
      OrderByIsOrdered(rows, ids - {r[0]}, key);
      assert forall i :: 0 <= i < |rest| ==> rest[i] in ids - {r[0]};
      OrderedFromFirst(rows, r[0], rest, key);
    }
  }

  lemma FirstOfOrdered(rows: Table, ids: set<TradeId>, key: SortKey, r: seq<TradeId>)
    requires r != [] && Ordered(rows, r, key) && ids <= rows.Keys && forall id :: id in r <==> id in ids
    ensures IsFirst(rows, ids, key, r[0])
    ensures forall id :: id in r[1..] <==> id in ids - {r[0]}
    ensures Ordered(rows, r[1..], key)
  {
    assert r[0] in r;
    forall id
      ensures id in r[1..] <==> id in ids - {r[0]}
    {
      assert id in r <==> id == r[0] || id in r[1..];
      assert id in r[1..] ==> Before(key(rows[r[0]]), key(rows[id]));
    }
  }

  /** There is one way to order a set of rows: any ordered listing of exactly these rows is this one. */
  lemma {:induction false} OrderIsUnique(rows: Table, ids: set<TradeId>, key: SortKey, r: seq<TradeId>)
    requires Ranked(rows, ids, key) && Ordered(rows, r, key) && forall id :: id in r <==> id in ids
    ensures r == OrderBy(rows, ids, key)
    decreases |ids|
  {
    if r == [] {
      assert ids == {};
    } else {
      assert r[0] in r;
      FirstOfOrdered(rows, ids, key, r);
      OrderIsUnique(rows, ids - {r[0]}, key, r[1..]);
      FirstIsUnique(rows, ids, key, r[0], OrderBy(rows, ids, key)[0]);
    }
  }

  lemma FirstIsUnique(rows: Table, ids: set<TradeId>, key: SortKey, a: TradeId, b: TradeId)
    requires ids <= rows.Keys && IsFirst(rows, ids, key, a) && IsFirst(rows, ids, key, b)
    ensures a == b
  {}

  /** LIMIT and OFFSET. */
  function Page<T>(r: seq<T>, limit: nat, offset: nat): seq<T> {
    if offset >= |r| then [] else if offset + limit >= |r| then r[offset..] else r[offset..offset + limit]
  }

  /** Pages 0 .. n-1, one after the other. */
  function Pages<T>(r: seq<T>, limit: nat, n: nat): seq<T> {
    if n == 0 then [] else Pages(r, limit, n - 1) + Page(r, limit, (n - 1) * limit)
  }

  lemma {:induction false} PagesArePrefix<T>(r: seq<T>, limit: nat, n: nat)
    requires limit >= 1
    ensures Pages(r, limit, n) == if n * limit >= |r| then r else r[..n * limit]
  {
    if n > 0 {
      PagesArePrefix(r, limit, n - 1);
      assert n * limit == (n - 1) * limit + limit;
      PrefixAndPage(r, limit, (n - 1) * limit);
    }
  }

  lemma PrefixAndPage<T>(r: seq<T>, limit: nat, offset: nat)
    ensures (if offset >= |r| then r else r[..offset]) + Page(r, limit, offset)
         == if offset + limit >= |r| then r else r[..offset + limit]
  {}

  // ---------------------------------------------------------------- GET /trades

  /** The WHERE clause: the caller's rows, optionally in one status. */
  function Matching(rows: Table, userId: nat, status: Option<TradeStatus>): set<TradeId> {
    set id | id in rows && rows[id].userId == userId && (status.None? || rows[id].status == status.value)
  }

  /** ORDER BY created_at DESC, id DESC. */
  function NewestFirst(t: Trade): Rank { Rank(0 - t.createdAt, 0 - t.id) }

  /** `list_trades_for_user`: one page and the total. */
  ghost function ListTrades(rows: Table, userId: nat, status: Option<TradeStatus>, limit: nat, offset: nat):
    (r: (seq<TradeId>, nat))
    requires forall id :: id in rows ==> rows[id].id == id
  {
    var ids := Matching(rows, userId, status);
    (Page(OrderBy(rows, ids, NewestFirst), limit, offset), |ids|)
  }

  ghost function FirstPages(rows: Table, userId: nat, status: Option<TradeStatus>, limit: nat, n: nat): seq<TradeId>
    requires forall id :: id in rows ==> rows[id].id == id
  {
    if n == 0 then []
    else FirstPages(rows, userId, status, limit, n - 1) + ListTrades(rows, userId, status, limit, (n - 1) * limit).0
  }

  lemma {:induction false} FirstPagesArePages(rows: Table, userId: nat, status: Option<TradeStatus>, limit: nat, n: nat)
    requires forall id :: id in rows ==> rows[id].id == id
    ensures FirstPages(rows, userId, status, limit, n) ==
              Pages(OrderBy(rows, Matching(rows, userId, status), NewestFirst), limit, n)
  {
    if n > 0 {
      FirstPagesArePages(rows, userId, status, limit, n - 1);
    }
  }

  /** Pages tile the listing: the pages at offsets 0, limit, 2 * limit, ... up to the reported total are,
      one after the other, exactly the caller's matching trades, each once, strictly newest first. */
  lemma PagesTileTheListing(rows: Table, userId: nat, status: Option<TradeStatus>, limit: nat, n: nat)
    requires forall id :: id in rows ==> rows[id].id == id
    requires limit >= 1 && n * limit >= ListTrades(rows, userId, status, limit, 0).1
    ensures var all := FirstPages(rows, userId, status, limit, n);
      && |all| == ListTrades(rows, userId, status, limit, 0).1
      && Ordered(rows, all, NewestFirst)
      && (forall id :: id in all <==>
            (id in rows && rows[id].userId == userId && (status.None? || rows[id].status == status.value)))
      && (forall i, j :: 0 <= i < j < |all| ==> Newer(rows, all[i], all[j]))
  {
    var ids := Matching(rows, userId, status);
    FirstPagesArePages(rows, userId, status, limit, n);
    PagesArePrefix(OrderBy(rows, ids, NewestFirst), limit, n);
    OrderByIsOrdered(rows, ids, NewestFirst);
    var all := FirstPages(rows, userId, status, limit, n);
    forall i, j | 0 <= i < j < |all|
      ensures Newer(rows, all[i], all[j])
    {
      assert Before(NewestFirst(rows[all[i]]), NewestFirst(rows[all[j]]));
    }
  }

  /** Created later, or at the same moment with the larger id. */
  predicate Newer(rows: Table, a: TradeId, b: TradeId) {
    && a in rows && b in rows
    && (rows[a].createdAt > rows[b].createdAt || (rows[a].createdAt == rows[b].createdAt && a > b))
  }

  /** Any page, at any offset, is that part of the one page that holds everything. */
  lemma PageIsPartOfListing(rows: Table, userId: nat, status: Option<TradeStatus>, limit: nat, offset: nat)
    requires forall id :: id in rows ==> rows[id].id == id
    ensures var (page, total) := ListTrades(rows, userId, status, limit, offset);
      var all := ListTrades(rows, userId, status, total, 0).0;
      && |all| == total
      && |page| == (if offset >= total then 0 else if total - offset < limit then total - offset else limit)
      && forall i :: 0 <= i < |page| ==> page[i] == all[offset + i]
  {}

  // ---------------------------------------------------------------- resume_pending

  /** WHERE status = PENDING AND submitted_at IS NULL. */
  function NeverSubmitted(rows: Table): set<TradeId> {
    set id | id in rows && Claimable(rows[id])
  }

  /** ORDER BY id. */
  function SmallestId(t: Trade): Rank { Rank(0, t.id) }

  /** ... LIMIT maxsize. */
  ghost function ResumeIds(rows: Table, limit: nat): (r: seq<TradeId>)
    requires forall id :: id in rows ==> rows[id].id == id
    ensures |r| == if |NeverSubmitted(rows)| <= limit then |NeverSubmitted(rows)| else limit
    ensures forall id :: id in r ==> id in NeverSubmitted(rows)
  {
    Page(OrderBy(rows, NeverSubmitted(rows), SmallestId), limit, 0)
  }

  /** The selection is the smallest ids, each once. */
  lemma ResumeTakesSmallest(rows: Table, limit: nat)
    requires forall id :: id in rows ==> rows[id].id == id
    ensures forall id :: id in NeverSubmitted(rows) <==>
              id in rows && rows[id].status == Pending && !rows[id].submitted
    ensures var r := ResumeIds(rows, limit);
      && (forall i, j :: 0 <= i < j < |r| ==> r[i] < r[j])
      && (forall i, id :: 0 <= i < |r| && id in NeverSubmitted(rows) && id !in r ==> r[i] < id)
  {
    var all := OrderBy(rows, NeverSubmitted(rows), SmallestId);
    OrderByIsOrdered(rows, NeverSubmitted(rows), SmallestId);
    SmallestIdIsIncreasing(rows, all);
    PrefixIsSmallest(all, limit);
  }

  lemma SmallestIdIsIncreasing(rows: Table, r: seq<TradeId>)
    requires Ordered(rows, r, SmallestId) && forall id :: id in rows ==> rows[id].id == id
    ensures forall i, j :: 0 <= i < j < |r| ==> r[i] < r[j]
  {
    forall i, j | 0 <= i < j < |r|
      ensures r[i] < r[j]
    {
      assert Before(SmallestId(rows[r[i]]), SmallestId(rows[r[j]]));
    }
  }

  lemma PrefixIsSmallest(all: seq<TradeId>, limit: nat)
    requires forall i, j :: 0 <= i < j < |all| ==> all[i] < all[j]
    ensures var r := Page(all, limit, 0);
      && (forall i, j :: 0 <= i < j < |r| ==> r[i] < r[j])
      && (forall i, id :: 0 <= i < |r| && id in all && id !in r ==> r[i] < id)
  {
    var r := Page(all, limit, 0);
    forall i, id | 0 <= i < |r| && id in all && id !in r
      ensures r[i] < id
    {
      assert all == r + all[|r|..];
      var k :| 0 <= k < |all[|r|..]| && all[|r|..][k] == id;
    }
  }
}
