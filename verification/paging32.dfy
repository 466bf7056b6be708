/**
 * The order query's paging as the original computes it, in 32-bit signed
 * arithmetic. `(page - 1) * limit` and `start + limit` wrap around for
 * large pages and limits: the start can come out negative, which makes the
 * slice expression fail at run time, or wrap back to 0, which serves the
 * first page for a page far past the end. `Storage.GetOrders` is the
 * corrected query, computed without wrap-around.
 */
module Paging32 {
  import opened Results
  import opened Records
  import opened Storage

  const Two31: int := 0x8000_0000
  const Two32: int := 0x1_0000_0000

  predicate IsInt32(x: int) {
    -Two31 <= x < Two31
  }

  /** Two's-complement wrap-around of `x` to 32 bits. */
  function Wrap32(x: int): (r: int)
    ensures IsInt32(r)
    ensures (r - x) % Two32 == 0
    ensures IsInt32(x) ==> r == x
  {
    (x + Two31) % Two32 - Two31
  }

  /** The page's zero-based start, `(page - 1) * limit` after the defaults, wrapped to 32 bits. */
  function Start32(page: int, limit: int): (start: int)
    ensures IsInt32(start)
    ensures IsInt32(PageStart(page, limit)) ==> start == PageStart(page, limit)
  {
    Wrap32((EffectivePage(page) - 1) * EffectiveLimit(limit))
  }

  /**
   * The page's end, `start + limit` wrapped to 32 bits and then cut down to
   * the wrapped number of matches `total`.
   */
  function End32(page: int, limit: int, total: int): (end: int)
    ensures end <= total
    ensures IsInt32(Start32(page, limit) + EffectiveLimit(limit)) && Start32(page, limit) + EffectiveLimit(limit) <= total
      ==> end == Start32(page, limit) + EffectiveLimit(limit)
  {
    var end := Wrap32(Start32(page, limit) + EffectiveLimit(limit));
    if end > total then total else end
  }

  /**
   * The original slices only when the 32-bit start is below the wrapped
   * number of matches `Wrap32(n)`; the slice is in range when
   * `0 <= start <= end <= n`.
   */
  predicate SliceInRange(n: nat, page: int, limit: int) {
    var total := Wrap32(n);
    var start := Start32(page, limit);
    start >= total || 0 <= start <= End32(page, limit, total) <= n
  }

  /**
   * The page `all[start:end]` the original serves, with its 32-bit start
   * and end; `None` where the slice bounds are out of range and the handler
   * fails.
   */
  function Page32<T>(all: seq<T>, page: int, limit: int): (r: Option<seq<T>>)
    ensures r.None? <==> !SliceInRange(|all|, page, limit)
    ensures Start32(page, limit) >= Wrap32(|all|) ==> r == Some([])
    ensures r.Some? && Start32(page, limit) < Wrap32(|all|) ==>
      && |r.value| == End32(page, limit, Wrap32(|all|)) - Start32(page, limit)
      && forall i :: 0 <= i < |r.value| ==> r.value[i] == all[Start32(page, limit) + i]
    ensures r.Some? ==> forall x :: x in r.value ==> x in all
  {
    var total := Wrap32(|all|);
    var start := Start32(page, limit);
    if start >= total then
      Some([])
    else
      var e := End32(page, limit, total);
      if 0 <= start <= e <= |all| then Some(Window(all, start, e - start)) else None
  }

  /**
   * One page of matching orders as the original computes it: `None` exactly
   * where the slice is out of range; otherwise the wrapped count, and
   * either nothing (the start is at or past that count) or the matches from
   * the 32-bit start up to the 32-bit end.
   */
  function GetOrdersAsWritten(s: Store, userId: int, status: string, page: int, limit: int): (r: Option<OrdersPage>)
    ensures r.None? <==> !SliceInRange(|AllMatchingOrders(s, userId, status)|, page, limit)
    ensures r.Some? ==> r.value.total == Wrap32(|MatchingOrderIds(s, userId, status)|)
    ensures var all := AllMatchingOrders(s, userId, status);
      r.Some? && Start32(page, limit) >= Wrap32(|all|) ==> r.value.orders == []
    ensures var all := AllMatchingOrders(s, userId, status);
      r.Some? && Start32(page, limit) < Wrap32(|all|) ==>
        && |r.value.orders| == End32(page, limit, Wrap32(|all|)) - Start32(page, limit)
        && forall i :: 0 <= i < |r.value.orders| ==> r.value.orders[i] == all[Start32(page, limit) + i]
    ensures r.Some? ==> forall o :: o in r.value.orders ==> o in AllMatchingOrders(s, userId, status)
  {
    var all := AllMatchingOrders(s, userId, status);
    AllMatchingOrdersCount(s, userId, status);
    match Page32(all, page, limit)
    case None => None
    case Some(orders) => Some(OrdersPage(orders, Wrap32(|all|)))
  }

  /** Page 2147483647 of two orders per page starts at -4 after wrap-around, and the slice fails. */
  lemma NegativeStartFails(s: Store, userId: int, status: string)
    requires |MatchingOrderIds(s, userId, status)| < Two31
    ensures GetOrdersAsWritten(s, userId, status, 2147483647, 2) == None
    ensures GetOrders(s, userId, status, 2147483647, 2).orders == []
  {
    AllMatchingOrdersCount(s, userId, status);
    LastPageFails(AllMatchingOrders(s, userId, status));
    PastTheEndIsEmpty(s, userId, status, 2147483647, 2);
  }

  lemma LastPageFails<T>(all: seq<T>)
    requires |all| < Two31
    ensures Page32(all, 2147483647, 2) == None
  {
    StartOfLastPage();
  }

  lemma StartOfLastPage()
    ensures Start32(2147483647, 2) == -4
    ensures Wrap32(-4 + EffectiveLimit(2)) == -2
    ensures PageStart(2147483647, 2) == 4294967292
  {
  }

  /**
   * Page 65537 of 65536 orders per page starts at 0 after wrap-around, so a
   * query with any match serves the first page instead of an empty one.
   */
  lemma WrappedStartServesFirstPage(s: Store, userId: int, status: string)
    requires 1 <= |MatchingOrderIds(s, userId, status)| < Two31
    ensures GetOrdersAsWritten(s, userId, status, 65537, 65536).Some?
    ensures GetOrdersAsWritten(s, userId, status, 65537, 65536).value.orders != []
    ensures GetOrdersAsWritten(s, userId, status, 65537, 65536).value.orders[0] == AllMatchingOrders(s, userId, status)[0]
    ensures GetOrders(s, userId, status, 65537, 65536).orders == []
  {
    AllMatchingOrdersCount(s, userId, status);
    WrappedPageIsFirstPage(AllMatchingOrders(s, userId, status));
    PastTheEndIsEmpty(s, userId, status, 65537, 65536);
  }

  lemma WrappedPageIsFirstPage<T>(all: seq<T>)
    requires 1 <= |all| < Two31
    ensures Page32(all, 65537, 65536).Some?
    ensures Page32(all, 65537, 65536).value != []
    ensures Page32(all, 65537, 65536).value[0] == all[0]
  {
    assert Page32(all, 65537, 65536) == Some(Window(all, 0, Min(65536, |all|))) by {
      StartOfWrappedPage();
      assert Wrap32(|all|) == |all|;
    }
  }

  lemma StartOfWrappedPage()
    ensures Start32(65537, 65536) == 0
    ensures Wrap32(0 + EffectiveLimit(65536)) == 65536
    ensures PageStart(65537, 65536) == 4294967296
  {
  }

  /** The corrected query serves an empty page once the start is at or past the number of matches. */
  lemma PastTheEndIsEmpty(s: Store, userId: int, status: string, page: int, limit: int)
    requires PageStart(page, limit) >= |MatchingOrderIds(s, userId, status)|
    ensures GetOrders(s, userId, status, page, limit).orders == []
  {
  }

  /** Where nothing wraps around, the 32-bit computation serves the corrected page. */
  lemma AgreesWithoutOverflow(s: Store, userId: int, status: string, page: int, limit: int)
    requires PageStart(page, limit) + EffectiveLimit(limit) < Two31
    requires |MatchingOrderIds(s, userId, status)| < Two31
    ensures GetOrdersAsWritten(s, userId, status, page, limit) == Some(GetOrders(s, userId, status, page, limit))
  {
    AllMatchingOrdersCount(s, userId, status);
    PageAgreesWithoutOverflow(AllMatchingOrders(s, userId, status), page, limit);
  }

  lemma PageAgreesWithoutOverflow<T>(all: seq<T>, page: int, limit: int)
    requires PageStart(page, limit) + EffectiveLimit(limit) < Two31
    requires |all| < Two31
    ensures Page32(all, page, limit) == Some(PageOf(all, page, limit))
  {
    var start := PageStart(page, limit);
    var l := EffectiveLimit(limit);
    assert Start32(page, limit) == start;
    assert Wrap32(start + l) == start + l;
    assert Wrap32(|all|) == |all|;
  }
}
