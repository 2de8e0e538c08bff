/**
 * The query side of `PrismaOrderRepository`
 * (src/modules/orders/infrastructure/persistence/prisma-order.repository.ts): the selection,
 * ordering and page arithmetic of `findByUserId`, and `existsById`. The order table is a
 * sequence of rows in storage order.
 */
module OrderRepository {
  import opened Wrappers
  import opened OrderEntity

  datatype PageInfo = PageInfo(page: int, limit: int, total: int, totalPages: int, hasNext: bool, hasPrev: bool)

  datatype PaginatedResult = PaginatedResult(data: seq<Order>, pagination: PageInfo)

  /** `where: { userId }`: the user's rows, each as often as it occurs in the table. */
  function OfUser(rows: seq<Order>, userId: string): (r: seq<Order>)
    ensures forall i :: 0 <= i < |r| ==> r[i].userId == userId
    ensures forall o :: multiset(r)[o] == if o.userId == userId then multiset(rows)[o] else 0
  {
    if |rows| == 0 then []
    else
      var prev := OfUser(rows[..|rows| - 1], userId);
      var last := rows[|rows| - 1];
      assert rows == rows[..|rows| - 1] + [last];
      if last.userId == userId then prev + [last] else prev
  }

  /** `orderBy: { createdAt: 'desc' }`: newest first. */
  predicate NewestFirst(s: seq<Order>)
  {
    forall i, j :: 0 <= i < j < |s| ==> s[i].createdAt >= s[j].createdAt
  }

  /** Puts `x` before the first order that is strictly older. */
  function Insert(x: Order, s: seq<Order>): (r: seq<Order>)
    ensures |r| == |s| + 1
    ensures multiset(r) == multiset(s) + multiset{x}
  {
    if s == [] || x.createdAt >= s[0].createdAt then
      [x] + s
    else
      assert s == [s[0]] + s[1..];
      [s[0]] + Insert(x, s[1..])
  }

  /** Inserting into a newest-first list keeps it newest first; the new head is `x` or the old one. */
  lemma {:induction false} InsertKeepsNewestFirst(x: Order, s: seq<Order>)
    requires NewestFirst(s)
    ensures NewestFirst(Insert(x, s))
    ensures Insert(x, s)[0] == x || (s != [] && Insert(x, s)[0] == s[0])
  {
    if s != [] && x.createdAt < s[0].createdAt {
      var rest := Insert(x, s[1..]);
      InsertKeepsNewestFirst(x, s[1..]);
      assert rest[0].createdAt <= s[0].createdAt;
      var r := Insert(x, s);
      assert r == [s[0]] + rest;
      forall i, j | 0 <= i < j < |r| ensures r[i].createdAt >= r[j].createdAt {
        if i == 0 {
          assert r[j] == rest[j - 1];
          assert rest[j - 1].createdAt <= rest[0].createdAt;
        } else {
          assert r[i] == rest[i - 1] && r[j] == rest[j - 1];
        }
      }
    }
  }

  /** Sorting by `createdAt`, newest first; orders created at the same instant keep their row order. */
  function SortNewestFirst(s: seq<Order>): (r: seq<Order>)
    ensures NewestFirst(r)
    ensures multiset(r) == multiset(s)
  {
    if s == [] then []
    else
      assert s == [s[0]] + s[1..];
      var rest := SortNewestFirst(s[1..]);
      InsertKeepsNewestFirst(s[0], rest);
      Insert(s[0], rest)
  }

  /** `skip: offset, take: limit` over an ordered list. */
  function Window(s: seq<Order>, offset: int, limit: int): (r: seq<Order>)
    requires offset >= 0 && limit >= 0
    ensures |r| == if offset >= |s| then 0 else if offset + limit <= |s| then limit else |s| - offset
    ensures forall i :: 0 <= i < |r| ==> r[i] == s[offset + i]
  {
    var from := if offset <= |s| then offset else |s|;
    var to := if offset + limit <= |s| then offset + limit else |s|;
    s[from..to]
  }

  /** `Math.ceil(total / limit)` for a non-negative total and a positive limit. */
  function CeilDiv(total: int, limit: int): (r: int)
    requires total >= 0 && limit >= 1
    ensures r >= 0 && r * limit >= total && (r - 1) * limit < total
  {
    var q := (total + limit - 1) / limit;
    assert q * limit <= total + limit - 1 < (q + 1) * limit;
    q
  }

  /**
   * The counters of `findByUserId` for a page of `limit` orders out of `total`: `totalPages` is
   * the ceiling of `total / limit`, there is a next page exactly when orders lie beyond this one,
   * and a previous page exactly when this one does not start at the first order.
   */
  function Counters(page: int, limit: int, total: int): (c: PageInfo)
    requires page >= 1 && limit >= 1 && total >= 0
    ensures c.page == page && c.limit == limit && c.total == total
    ensures c.totalPages >= 0 && c.totalPages * limit >= total && (c.totalPages - 1) * limit < total
    ensures c.hasNext <==> page * limit < total
    ensures c.hasPrev <==> (page - 1) * limit > 0
  {
    var totalPages := CeilDiv(total, limit);
    HasNextMeansMoreOrders(page, limit, total, totalPages);
    HasPrevMeansEarlierOrders(page, limit);
    PageInfo(page, limit, total, totalPages, page < totalPages, page > 1)
  }

  /**
   * `findByUserId(userId, page = 1, limit = 10)`: the user's orders, newest first, the page at
   * `offset = (page - 1) * limit`, and the counters over all of the user's orders.
   */
  function FindByUserId(rows: seq<Order>, userId: string, page: Option<int>, limit: Option<int>): (r: PaginatedResult)
    requires page.GetOr(1) >= 1 && limit.GetOr(10) >= 1
    ensures r.pagination == Counters(page.GetOr(1), limit.GetOr(10), |OfUser(rows, userId)|)
  {
    var p := page.GetOr(1);
    var l := limit.GetOr(10);
    MulNonNegative(p - 1, l);
    var mine := OfUser(rows, userId);
    PaginatedResult(Window(SortNewestFirst(mine), (p - 1) * l, l), Counters(p, l, |mine|))
  }

  /** A window of a newest-first list is newest first. */
  lemma WindowNewestFirst(s: seq<Order>, offset: int, limit: int)
    requires offset >= 0 && limit >= 0 && NewestFirst(s)
    ensures NewestFirst(Window(s, offset, limit))
  {
    var w := Window(s, offset, limit);
    forall i, j | 0 <= i < j < |w| ensures w[i].createdAt >= w[j].createdAt {
      assert w[i] == s[offset + i] && w[j] == s[offset + j];
    }
  }

  /** Every order in a window of the user's sorted orders is one of the user's rows. */
  lemma WindowOfUserRows(rows: seq<Order>, userId: string, offset: int, limit: int)
    requires offset >= 0 && limit >= 0
    ensures var w := Window(SortNewestFirst(OfUser(rows, userId)), offset, limit);
            forall i :: 0 <= i < |w| ==> w[i].userId == userId && w[i] in rows
  {
    var mine := OfUser(rows, userId);
    var sorted := SortNewestFirst(mine);
    var w := Window(sorted, offset, limit);
    forall i | 0 <= i < |w| ensures w[i].userId == userId && w[i] in rows {
      assert w[i] == sorted[offset + i];
      assert w[i] in multiset(sorted);
      assert multiset(mine)[w[i]] > 0;
    }
  }

  /** The page is the window at `(page - 1) * limit` of the user's sorted orders, and the counters count all of them. */
  lemma FindByUserIdShape(rows: seq<Order>, userId: string, page: Option<int>, limit: Option<int>)
    requires page.GetOr(1) >= 1 && limit.GetOr(10) >= 1
    ensures var r := FindByUserId(rows, userId, page, limit);
            var p, l := page.GetOr(1), limit.GetOr(10);
            var sorted := SortNewestFirst(OfUser(rows, userId));
            && (p - 1) * l >= 0
            && r.data == Window(sorted, (p - 1) * l, l)
            && r.pagination.page == p && r.pagination.limit == l && r.pagination.total == |sorted|
  {
    MulNonNegative(page.GetOr(1) - 1, limit.GetOr(10));
    var mine := OfUser(rows, userId);
    assert |SortNewestFirst(mine)| == |multiset(SortNewestFirst(mine))| == |multiset(mine)| == |mine|;
  }

  /**
   * The page holds only the user's orders, newest first, and never more than `limit` of them.
   */
  lemma FindByUserIdSelectsPage(rows: seq<Order>, userId: string, page: Option<int>, limit: Option<int>)
    requires page.GetOr(1) >= 1 && limit.GetOr(10) >= 1
    ensures var r := FindByUserId(rows, userId, page, limit);
            && (forall i :: 0 <= i < |r.data| ==> r.data[i].userId == userId && r.data[i] in rows)
            && NewestFirst(r.data)
            && |r.data| <= r.pagination.limit
  {
    FindByUserIdShape(rows, userId, page, limit);
    var l := limit.GetOr(10);
    var offset := (page.GetOr(1) - 1) * l;
    WindowNewestFirst(SortNewestFirst(OfUser(rows, userId)), offset, l);
    WindowOfUserRows(rows, userId, offset, l);
  }

  /** The page holds `limit` orders while enough remain, the remainder on the last page, and none past the end. */
  lemma FindByUserIdPageSize(rows: seq<Order>, userId: string, page: Option<int>, limit: Option<int>)
    requires page.GetOr(1) >= 1 && limit.GetOr(10) >= 1
    ensures var r := FindByUserId(rows, userId, page, limit);
            var offset := (r.pagination.page - 1) * r.pagination.limit;
            |r.data| == if offset >= r.pagination.total then 0
                        else if offset + r.pagination.limit <= r.pagination.total then r.pagination.limit
                        else r.pagination.total - offset
  {
    FindByUserIdShape(rows, userId, page, limit);
  }

  /** The total and the page count do not depend on which page is asked for. */
  lemma TotalIgnoresPage(rows: seq<Order>, userId: string, page1: int, page2: int, limit: Option<int>)
    requires page1 >= 1 && page2 >= 1 && limit.GetOr(10) >= 1
    ensures FindByUserId(rows, userId, Some(page1), limit).pagination.total
         == FindByUserId(rows, userId, Some(page2), limit).pagination.total
    ensures FindByUserId(rows, userId, Some(page1), limit).pagination.totalPages
         == FindByUserId(rows, userId, Some(page2), limit).pagination.totalPages
  {
  }

  lemma MulNonNegative(a: int, b: int)
    requires a >= 0 && b >= 0
    ensures a * b >= 0
  {
  }

  /** `page < totalPages` holds exactly when some of the user's orders lie beyond this page. */
  lemma HasNextMeansMoreOrders(page: int, limit: int, total: int, totalPages: int)
    requires limit >= 1 && total >= 0
    requires totalPages * limit >= total && (totalPages - 1) * limit < total
    ensures page < totalPages <==> page * limit < total
  {
    if page < totalPages {
      assert page * limit <= (totalPages - 1) * limit by {
        MulMonotone(page, totalPages - 1, limit);
      }
    } else {
      assert page * limit >= totalPages * limit by {
        MulMonotone(totalPages, page, limit);
      }
    }
  }

  /** `page > 1` holds exactly when the page does not start at the first order. */
  lemma HasPrevMeansEarlierOrders(page: int, limit: int)
    requires page >= 1 && limit >= 1
    ensures page > 1 <==> (page - 1) * limit > 0
  {
    if page > 1 {
      MulMonotone(1, page - 1, limit);
    }
  }

  lemma MulMonotone(a: int, b: int, c: int)
    requires a <= b && c >= 0
    ensures a * c <= b * c
  {
    assert b * c - a * c == (b - a) * c;
    MulNonNegative(b - a, c);
  }

  /** The number of rows whose id is `id`. */
  function CountWithId(rows: seq<Order>, id: string): (n: int)
    ensures n >= 0
    ensures n > 0 <==> exists i :: 0 <= i < |rows| && rows[i].id == Some(id)
  {
    if |rows| == 0 then 0
    else
      var prev := CountWithId(rows[..|rows| - 1], id);
      assert forall i :: 0 <= i < |rows| - 1 ==> rows[..|rows| - 1][i] == rows[i];
      prev + (if rows[|rows| - 1].id == Some(id) then 1 else 0)
  }

  /** `existsById`: `count({ where: { id } }) > 0`. */
  function ExistsById(rows: seq<Order>, id: string): (r: bool)
    ensures r <==> exists i :: 0 <= i < |rows| && rows[i].id == Some(id)
  {
    CountWithId(rows, id) > 0
  }

  /** The rows are exactly the orders of a store keyed by id. */
  ghost predicate Enumerates(rows: seq<Order>, orders: map<string, Order>)
  {
    && (forall i :: 0 <= i < |rows| ==> rows[i].id.Some? && rows[i].id.value in orders && orders[rows[i].id.value] == rows[i])
    && (forall k :: k in orders ==> orders[k].id == Some(k) && orders[k] in rows)
  }

  /** Over a table that lists a keyed store, `existsById` is key membership. */
  lemma ExistsByIdIsKeyMembership(rows: seq<Order>, orders: map<string, Order>, id: string)
    requires Enumerates(rows, orders)
    ensures ExistsById(rows, id) <==> id in orders
  {
    if id in orders {
      var i :| 0 <= i < |rows| && rows[i] == orders[id];
      assert rows[i].id == Some(id);
    }
  }
}
