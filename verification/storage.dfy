/**
 * The in-memory record store. Each operation of the original holds the
 * store's lock for its whole body, so each is modelled as one atomic
 * transition from a `Store` to a new `Store` plus a result.
 */
module Storage {
  import opened Results
  import opened Records
  import opened Keys
  import opened Text

  datatype Store = Store(
    users: map<int, User>,
    listings: map<int, Listing>,
    orders: map<int, Order>,
    nextUserId: int,
    nextListingId: int,
    nextOrderId: int,
    passwords: map<int, string>)

  datatype Resource = UserResource | ListingResource | OrderResource

  /** What a failed lookup was looking for. */
  datatype Key = ById(id: int) | ByEmail(email: string)

  datatype StoreError = NotFound(resource: Resource, key: Key) | UserExists(email: string)

  /** The store after an operation, and what the operation returned. */
  datatype Outcome<T> = Outcome(store: Store, result: Result<T, StoreError>)

  /** A page of orders and the number of orders that matched the filters. */
  datatype OrdersPage = OrdersPage(orders: seq<Order>, total: int)

  /**
   * The invariant every reachable store keeps: counters start at 1, every
   * live id lies below its collection's counter, and every record carries
   * the id it is stored under.
   */
  predicate Valid(s: Store) {
    && 1 <= s.nextUserId && 1 <= s.nextListingId && 1 <= s.nextOrderId
    && (forall k :: k in s.users ==> 1 <= k < s.nextUserId && s.users[k].id == k)
    && (forall k :: k in s.listings ==> 1 <= k < s.nextListingId && s.listings[k].id == k)
    && (forall k :: k in s.orders ==> 1 <= k < s.nextOrderId && s.orders[k].id == k)
  }

  /** No counter went backwards between `s` and `t`. */
  predicate CountersMonotone(s: Store, t: Store) {
    && s.nextUserId <= t.nextUserId
    && s.nextListingId <= t.nextListingId
    && s.nextOrderId <= t.nextOrderId
  }

  /** A fresh store: nothing stored, every counter at 1. */
  function NewStore(): (s: Store)
    ensures Valid(s)
    ensures |s.users| == 0 && |s.listings| == 0 && |s.orders| == 0 && |s.passwords| == 0
    ensures s.nextUserId == 1 && s.nextListingId == 1 && s.nextOrderId == 1
  {
    Store(map[], map[], map[], 1, 1, 1, map[])
  }

  // ---------------------------------------------------------------- users

  /** Some live user already holds `email`. */
  predicate EmailTaken(s: Store, email: string) {
    exists k :: k in s.users && s.users[k].email == email
  }

  /**
   * Stores `u` under the next user id, unless a live user already has its
   * email, in which case nothing changes.
   */
  function CreateUser(s: Store, u: User): (o: Outcome<User>)
    ensures EmailTaken(s, u.email) ==> o == Outcome(s, Err(UserExists(u.email)))
    ensures !EmailTaken(s, u.email) ==>
      && o.result.Ok?
      && o.result.value == u.(id := s.nextUserId)
      && o.store.users == s.users[s.nextUserId := o.result.value]
      && o.store.nextUserId == s.nextUserId + 1
      && o.store == s.(users := o.store.users, nextUserId := o.store.nextUserId)
    ensures Valid(s) ==> Valid(o.store) && CountersMonotone(s, o.store)
  {
    if EmailTaken(s, u.email) then
      Outcome(s, Err(UserExists(u.email)))
    else
      var stored := u.(id := s.nextUserId);
      Outcome(s.(users := s.users[s.nextUserId := stored], nextUserId := s.nextUserId + 1), Ok(stored))
  }

  function GetUser(s: Store, id: int): (r: Result<User, StoreError>)
    ensures r.Ok? <==> id in s.users
    ensures r.Ok? ==> r.value == s.users[id]
    ensures r.Err? ==> r.error == NotFound(UserResource, ById(id))
    ensures Valid(s) && r.Ok? ==> r.value.id == id
  {
    if id in s.users then Ok(s.users[id]) else Err(NotFound(UserResource, ById(id)))
  }

  /** The ids of the live users whose email is exactly `email`, ascending. */
  function UserIdsWithEmail(s: Store, email: string): (ids: seq<int>)
    ensures Increasing(ids)
    ensures forall k :: k in ids <==> k in s.users && s.users[k].email == email
  {
    Filter(SortedKeys(s.users.Keys), k => k in s.users && s.users[k].email == email)
  }

  /**
   * Exact, case-sensitive lookup by email. When several live users share
   * the email, the one with the lowest id is returned.
   */
  function GetUserByEmail(s: Store, email: string): (r: Result<User, StoreError>)
    ensures r.Err? <==> !EmailTaken(s, email)
    ensures r.Err? ==> r.error == NotFound(UserResource, ByEmail(email))
    ensures r.Ok? ==> r.value.email == email && r.value in s.users.Values
    ensures r.Ok? ==> forall k :: k in s.users && s.users[k].email == email ==>
      exists j :: j in s.users && s.users[j] == r.value && j <= k
  {
    var ids := UserIdsWithEmail(s, email);
    if ids == [] then
      assert forall k :: k in s.users ==> s.users[k].email != email by {
        forall k | k in s.users
          ensures s.users[k].email != email
        {
          assert k !in ids;
        }
      }
      Err(NotFound(UserResource, ByEmail(email)))
    else
      assert ids[0] in ids;
      assert forall k :: k in ids ==> ids[0] <= k by {
        forall k | k in ids
          ensures ids[0] <= k
        {
          var i :| 0 <= i < |ids| && ids[i] == k;
          assert i == 0 || ids[0] < ids[i];
        }
      }
      Ok(s.users[ids[0]])
  }

  /** On a valid store, the user found by email is stored under its own id. */
  lemma FoundByEmailIsLive(s: Store, email: string)
    requires Valid(s)
    ensures var r := GetUserByEmail(s, email);
      r.Ok? ==> r.value.id in s.users && s.users[r.value.id] == r.value
  {
  }

  /** Whole-record replace of a live user; the stored record keeps the id `id`. */
  function UpdateUser(s: Store, id: int, u: User): (o: Outcome<User>)
    ensures id !in s.users ==> o == Outcome(s, Err(NotFound(UserResource, ById(id))))
    ensures id in s.users ==>
      && o.result == Ok(u.(id := id))
      && o.store == s.(users := s.users[id := u.(id := id)])
    ensures Valid(s) ==> Valid(o.store) && CountersMonotone(s, o.store)
  {
    if id !in s.users then
      Outcome(s, Err(NotFound(UserResource, ById(id))))
    else
      var stored := u.(id := id);
      Outcome(s.(users := s.users[id := stored]), Ok(stored))
  }

  /** Removes a live user together with its password hash. */
  function DeleteUser(s: Store, id: int): (o: Outcome<()>)
    ensures id !in s.users ==> o == Outcome(s, Err(NotFound(UserResource, ById(id))))
    ensures id in s.users ==>
      && o.result.Ok?
      && o.store.users.Keys == s.users.Keys - {id}
      && o.store.passwords.Keys == s.passwords.Keys - {id}
      && (forall k :: k in o.store.users ==> o.store.users[k] == s.users[k])
      && (forall k :: k in o.store.passwords ==> o.store.passwords[k] == s.passwords[k])
      && o.store == s.(users := o.store.users, passwords := o.store.passwords)
    ensures Valid(s) ==> Valid(o.store) && CountersMonotone(s, o.store)
  {
    if id !in s.users then
      Outcome(s, Err(NotFound(UserResource, ById(id))))
    else
      Outcome(s.(users := s.users - {id}, passwords := s.passwords - {id}), Ok(()))
  }

  /** Records a password hash for `id`, whether or not a user `id` is live. */
  function SetUserPassword(s: Store, id: int, hash: string): (t: Store)
    ensures GetUserPassword(t, id) == Some(hash)
    ensures forall k :: k != id ==> GetUserPassword(t, k) == GetUserPassword(s, k)
    ensures t == s.(passwords := t.passwords)
  {
    s.(passwords := s.passwords[id := hash])
  }

  /** The stored password hash for `id`, if there is one. */
  function GetUserPassword(s: Store, id: int): (r: Option<string>)
    ensures r.Some? <==> id in s.passwords
    ensures r.Some? ==> r.value == s.passwords[id]
  {
    if id in s.passwords then Some(s.passwords[id]) else None
  }

  // ------------------------------------------------------------- listings

  /** Stores `l` under the next listing id with both timestamps set to `now`. */
  function CreateListing(s: Store, l: Listing, now: Time): (o: Outcome<Listing>)
    ensures o.result.Ok?
    ensures o.result.value == l.(id := s.nextListingId, createdAt := Some(now), updatedAt := Some(now))
    ensures o.store.listings == s.listings[s.nextListingId := o.result.value]
    ensures o.store.nextListingId == s.nextListingId + 1
    ensures o.store == s.(listings := o.store.listings, nextListingId := o.store.nextListingId)
    ensures Valid(s) ==> Valid(o.store) && CountersMonotone(s, o.store) && s.nextListingId !in s.listings
  {
    var stored := l.(id := s.nextListingId, createdAt := Some(now), updatedAt := Some(now));
    Outcome(s.(listings := s.listings[s.nextListingId := stored], nextListingId := s.nextListingId + 1), Ok(stored))
  }

  function GetListing(s: Store, id: int): (r: Result<Listing, StoreError>)
    ensures r.Ok? <==> id in s.listings
    ensures r.Ok? ==> r.value == s.listings[id]
    ensures r.Err? ==> r.error == NotFound(ListingResource, ById(id))
    ensures Valid(s) && r.Ok? ==> r.value.id == id
  {
    if id in s.listings then Ok(s.listings[id]) else Err(NotFound(ListingResource, ById(id)))
  }

  /**
   * Whole-record replace of a live listing: the id and the creation time
   * are kept from the stored record, the update time becomes `now`.
   */
  function UpdateListing(s: Store, id: int, l: Listing, now: Time): (o: Outcome<Listing>)
    ensures id !in s.listings ==> o == Outcome(s, Err(NotFound(ListingResource, ById(id))))
    ensures id in s.listings ==>
      && o.result == Ok(l.(id := id, createdAt := s.listings[id].createdAt, updatedAt := Some(now)))
      && o.store == s.(listings := s.listings[id := o.result.value])
    ensures Valid(s) ==> Valid(o.store) && CountersMonotone(s, o.store)
  {
    if id !in s.listings then
      Outcome(s, Err(NotFound(ListingResource, ById(id))))
    else
      var stored := l.(id := id, createdAt := s.listings[id].createdAt, updatedAt := Some(now));
      Outcome(s.(listings := s.listings[id := stored]), Ok(stored))
  }

  function DeleteListing(s: Store, id: int): (o: Outcome<()>)
    ensures id !in s.listings ==> o == Outcome(s, Err(NotFound(ListingResource, ById(id))))
    ensures id in s.listings ==>
      && o.result.Ok?
      && o.store.listings.Keys == s.listings.Keys - {id}
      && (forall k :: k in o.store.listings ==> o.store.listings[k] == s.listings[k])
      && o.store == s.(listings := o.store.listings)
    ensures Valid(s) ==> Valid(o.store) && CountersMonotone(s, o.store)
  {
    if id !in s.listings then
      Outcome(s, Err(NotFound(ListingResource, ById(id))))
    else
      Outcome(s.(listings := s.listings - {id}), Ok(()))
  }

  /**
   * The listing query's three filters: the search term occurs in the title
   * or the description ignoring case, and the price lies within the bounds.
   * An empty term and a bound that is not positive are not applied.
   */
  predicate ListingMatches(l: Listing, search: string, priceMin: real, priceMax: real) {
    && (search == "" || ContainsFold(l.title, search) || ContainsFold(l.description, search))
    && (priceMin <= 0.0 || l.price >= priceMin)
    && (priceMax <= 0.0 || l.price <= priceMax)
  }

  /** The listings the query selects, in ascending id order. */
  function GetListings(s: Store, search: string, priceMin: real, priceMax: real): (r: seq<Listing>)
    ensures forall i :: 0 <= i < |r| ==>
      r[i] in s.listings.Values && ListingMatches(r[i], search, priceMin, priceMax)
    ensures forall k :: k in s.listings && ListingMatches(s.listings[k], search, priceMin, priceMax) ==>
      s.listings[k] in r
    ensures |r| == |MatchingListingIds(s, search, priceMin, priceMax)|
    ensures Valid(s) ==> forall i, j :: 0 <= i < j < |r| ==> r[i].id < r[j].id
  {
    var p := l => ListingMatches(l, search, priceMin, priceMax);
    var r := ValuesWhere(s.listings, p);
    forall k | k in s.listings && ListingMatches(s.listings[k], search, priceMin, priceMax)
      ensures s.listings[k] in r
    {
      ValuesWhereComplete(s.listings, p, k);
    }
    SameListingSelection(s, search, priceMin, priceMax, p);
    IncreasingIds(s, r, KeysWhere(s.listings, p));
    r
  }

  /** The ids of the live listings the query selects. */
  function MatchingListingIds(s: Store, search: string, priceMin: real, priceMax: real): set<int> {
    set k | k in s.listings && ListingMatches(s.listings[k], search, priceMin, priceMax)
  }

  lemma SameListingSelection(s: Store, search: string, priceMin: real, priceMax: real, p: Listing -> bool)
    requires forall l :: p(l) == ListingMatches(l, search, priceMin, priceMax)
    ensures SelectedKeys(s.listings, p) == MatchingListingIds(s, search, priceMin, priceMax)
  {
  }

  // --------------------------------------------------------------- orders

  /** Stores `o` under the next order id as a pending order created at `now`. */
  function CreateOrder(s: Store, o: Order, now: Time): (out: Outcome<Order>)
    ensures out.result.Ok?
    ensures out.result.value.id == s.nextOrderId
    ensures out.result.value.status == Pending
    ensures out.result.value.createdAt == out.result.value.updatedAt == Some(now)
    ensures out.result.value == o.(id := s.nextOrderId, status := Pending, createdAt := Some(now), updatedAt := Some(now))
    ensures out.store.orders == s.orders[s.nextOrderId := out.result.value]
    ensures out.store.nextOrderId == s.nextOrderId + 1
    ensures out.store == s.(orders := out.store.orders, nextOrderId := out.store.nextOrderId)
    ensures Valid(s) ==> Valid(out.store) && CountersMonotone(s, out.store) && s.nextOrderId !in s.orders
  {
    var stored := o.(id := s.nextOrderId, status := Pending, createdAt := Some(now), updatedAt := Some(now));
    Outcome(s.(orders := s.orders[s.nextOrderId := stored], nextOrderId := s.nextOrderId + 1), Ok(stored))
  }

  function GetOrder(s: Store, id: int): (r: Result<Order, StoreError>)
    ensures r.Ok? <==> id in s.orders
    ensures r.Ok? ==> r.value == s.orders[id]
    ensures r.Err? ==> r.error == NotFound(OrderResource, ById(id))
    ensures Valid(s) && r.Ok? ==> r.value.id == id
  {
    if id in s.orders then Ok(s.orders[id]) else Err(NotFound(OrderResource, ById(id)))
  }

  /**
   * Whole-record replace of a live order: the id and the creation time are
   * kept from the stored record, the update time becomes `now`.
   */
  function UpdateOrder(s: Store, id: int, o: Order, now: Time): (out: Outcome<Order>)
    ensures id !in s.orders ==> out == Outcome(s, Err(NotFound(OrderResource, ById(id))))
    ensures id in s.orders ==>
      && out.result == Ok(o.(id := id, createdAt := s.orders[id].createdAt, updatedAt := Some(now)))
      && out.store == s.(orders := s.orders[id := out.result.value])
    ensures Valid(s) ==> Valid(out.store) && CountersMonotone(s, out.store)
  {
    if id !in s.orders then
      Outcome(s, Err(NotFound(OrderResource, ById(id))))
    else
      var stored := o.(id := id, createdAt := s.orders[id].createdAt, updatedAt := Some(now));
      Outcome(s.(orders := s.orders[id := stored]), Ok(stored))
  }

  function DeleteOrder(s: Store, id: int): (out: Outcome<()>)
    ensures id !in s.orders ==> out == Outcome(s, Err(NotFound(OrderResource, ById(id))))
    ensures id in s.orders ==>
      && out.result.Ok?
      && out.store.orders.Keys == s.orders.Keys - {id}
      && (forall k :: k in out.store.orders ==> out.store.orders[k] == s.orders[k])
      && out.store == s.(orders := out.store.orders)
    ensures Valid(s) ==> Valid(out.store) && CountersMonotone(s, out.store)
  {
    if id !in s.orders then
      Outcome(s, Err(NotFound(OrderResource, ById(id))))
    else
      Outcome(s.(orders := s.orders - {id}), Ok(()))
  }

  /** The order query's filters; a user id that is not positive and an empty status are not applied. */
  predicate OrderMatches(o: Order, userId: int, status: string) {
    && (userId <= 0 || o.userId == userId)
    && (status == "" || o.status == status)
  }

  const DefaultLimit := 10

  /** A page number that is not positive means the first page. */
  function EffectivePage(page: int): (p: int)
    ensures p >= 1
    ensures page >= 1 ==> p == page
  {
    if page <= 0 then 1 else page
  }

  /** A limit that is not positive means the default of ten. */
  function EffectiveLimit(limit: int): (l: int)
    ensures l >= 1
    ensures limit >= 1 ==> l == limit
  {
    if limit <= 0 then DefaultLimit else limit
  }

  /** The zero-based offset of the first order of a page. */
  function PageStart(page: int, limit: int): (start: int)
    ensures start >= 0
  {
    var p := EffectivePage(page);
    var l := EffectiveLimit(limit);
    assert (p - 1) * l >= 0 by {
      MulNonNegative(p - 1, l);
    }
    (p - 1) * l
  }

  /** From page one on, a page starts after the full pages before it. */
  lemma PageStartOf(page: int, limit: int)
    requires page >= 1
    ensures PageStart(page, limit) == (page - 1) * EffectiveLimit(limit)
  {
  }

  lemma MulNonNegative(a: int, b: int)
    requires a >= 0 && b >= 0
    ensures a * b >= 0
  {
  }

  function Min(a: int, b: int): int {
    if a <= b then a else b
  }

  /** Every order of `xs` is live in `s` and passes the query's filters. */
  predicate AllMatch(s: Store, userId: int, status: string, xs: seq<Order>) {
    forall i :: 0 <= i < |xs| ==> xs[i] in s.orders.Values && OrderMatches(xs[i], userId, status)
  }

  /** The orders of `xs` carry strictly ascending ids. */
  predicate IdsAscending(xs: seq<Order>) {
    forall i, j :: 0 <= i < j < |xs| ==> xs[i].id < xs[j].id
  }

  /**
   * One page of the orders the query selects, in ascending id order, and
   * the number of orders it selects.
   */
  function GetOrders(s: Store, userId: int, status: string, page: int, limit: int): (r: OrdersPage)
    ensures r.total == |MatchingOrderIds(s, userId, status)|
    ensures r.orders == PageOf(AllMatchingOrders(s, userId, status), page, limit)
  {
    var all := AllMatchingOrders(s, userId, status);
    AllMatchingOrdersCount(s, userId, status);
    OrdersPage(PageOf(all, page, limit), |all|)
  }

  /**
   * Page `page` of `all` at `limit` per page, after the defaults: empty when
   * it starts at or past the end, otherwise the elements from its start on,
   * at most `limit` of them.
   */
  function PageOf<T>(all: seq<T>, page: int, limit: int): (w: seq<T>)
    ensures PageStart(page, limit) >= |all| ==> w == []
    ensures PageStart(page, limit) < |all| ==>
      |w| == Min(EffectiveLimit(limit), |all| - PageStart(page, limit))
    ensures forall i :: 0 <= i < |w| ==>
      PageStart(page, limit) + i < |all| && w[i] == all[PageStart(page, limit) + i]
  {
    Window(all, PageStart(page, limit), EffectiveLimit(limit))
  }

  /** Every order on a page is live and matches the filters. */
  lemma GetOrdersPageMatches(s: Store, userId: int, status: string, page: int, limit: int)
    ensures AllMatch(s, userId, status, GetOrders(s, userId, status, page, limit).orders)
  {
    AllMatchingOrdersMatch(s, userId, status);
    PageKeepsMatches(s, userId, status, AllMatchingOrders(s, userId, status), page, limit);
  }

  /** A page of a valid store lists ids in ascending order. */
  lemma GetOrdersPageAscending(s: Store, userId: int, status: string, page: int, limit: int)
    requires Valid(s)
    ensures IdsAscending(GetOrders(s, userId, status, page, limit).orders)
  {
    AllMatchingOrdersAscending(s, userId, status);
    PageKeepsOrder(AllMatchingOrders(s, userId, status), page, limit);
  }

  /** A page of a list of matching orders holds only matching orders. */
  lemma PageKeepsMatches(s: Store, userId: int, status: string, all: seq<Order>, page: int, limit: int)
    requires AllMatch(s, userId, status, all)
    ensures AllMatch(s, userId, status, PageOf(all, page, limit))
  {
    var w := PageOf(all, page, limit);
    forall i | 0 <= i < |w|
      ensures w[i] in s.orders.Values && OrderMatches(w[i], userId, status)
    {
      assert w[i] == all[PageStart(page, limit) + i];
    }
  }

  /** A page of a list with ascending ids has ascending ids. */
  lemma PageKeepsOrder(all: seq<Order>, page: int, limit: int)
    requires IdsAscending(all)
    ensures IdsAscending(PageOf(all, page, limit))
  {
    var w := PageOf(all, page, limit);
    var start := PageStart(page, limit);
    forall i, j | 0 <= i < j < |w|
      ensures w[i].id < w[j].id
    {
      var wi, wj := w[i], w[j];
      assert wi == all[start + i] && wj == all[start + j];
    }
  }

  /**
   * The `len` elements of `xs` from offset `start` on, cut short at the end
   * of `xs`; empty when `start` is at or past the end.
   */
  function Window<T>(xs: seq<T>, start: nat, len: nat): (w: seq<T>)
    ensures start >= |xs| ==> w == []
    ensures start < |xs| ==> |w| == Min(len, |xs| - start)
    ensures forall i :: 0 <= i < |w| ==> start + i < |xs| && w[i] == xs[start + i]
  {
    var n := if start >= |xs| then 0 else Min(len, |xs| - start);
    seq(n, i requires 0 <= i < n => xs[start + i])
  }

  /** Every order the query selects, in ascending id order, before paging. */
  function AllMatchingOrders(s: Store, userId: int, status: string): seq<Order> {
    ValuesWhere(s.orders, OrderQuery(userId, status))
  }

  /** The query's list has one entry per selected id. */
  lemma AllMatchingOrdersCount(s: Store, userId: int, status: string)
    ensures |AllMatchingOrders(s, userId, status)| == |MatchingOrderIds(s, userId, status)|
  {
    SameOrderSelection(s, userId, status, OrderQuery(userId, status));
  }

  /** The query's list holds only live orders that pass the filters. */
  lemma AllMatchingOrdersMatch(s: Store, userId: int, status: string)
    ensures AllMatch(s, userId, status, AllMatchingOrders(s, userId, status))
  {
    var p := OrderQuery(userId, status);
    var r := ValuesWhere(s.orders, p);
    forall i | 0 <= i < |r|
      ensures r[i] in s.orders.Values
    {
      assert r[i] == s.orders[KeysWhere(s.orders, p)[i]];
    }
  }

  /** In a valid store the query's list has ascending ids. */
  lemma AllMatchingOrdersAscending(s: Store, userId: int, status: string)
    requires Valid(s)
    ensures IdsAscending(AllMatchingOrders(s, userId, status))
  {
    SelectedOrdersAscending(s.orders, OrderQuery(userId, status));
  }

  /** Orders read at ascending keys of a map whose orders carry their keys have ascending ids. */
  lemma SelectedOrdersAscending(m: map<int, Order>, p: Order -> bool)
    requires forall k :: k in m ==> m[k].id == k
    ensures IdsAscending(ValuesWhere(m, p))
  {
    var ids := KeysWhere(m, p);
    var r := ValuesWhere(m, p);
    forall i, j | 0 <= i < j < |r|
      ensures r[i].id < r[j].id
    {
      assert r[i] == m[ids[i]] && r[j] == m[ids[j]];
    }
  }

  /** The order query's filters as a test on one order. */
  function OrderQuery(userId: int, status: string): (p: Order -> bool)
    ensures forall o :: p(o) == OrderMatches(o, userId, status)
  {
    o => OrderMatches(o, userId, status)
  }

  /** No live order that passes the filters is missing from the query's list. */
  lemma AllMatchingOrdersComplete(s: Store, userId: int, status: string, k: int)
    requires k in s.orders && OrderMatches(s.orders[k], userId, status)
    ensures s.orders[k] in AllMatchingOrders(s, userId, status)
  {
    ValuesWhereComplete(s.orders, OrderQuery(userId, status), k);
  }

  /** The ids of the live orders the query selects. */
  function MatchingOrderIds(s: Store, userId: int, status: string): set<int> {
    set k | k in s.orders && OrderMatches(s.orders[k], userId, status)
  }

  lemma SameOrderSelection(s: Store, userId: int, status: string, p: Order -> bool)
    requires forall o :: p(o) == OrderMatches(o, userId, status)
    ensures SelectedKeys(s.orders, p) == MatchingOrderIds(s, userId, status)
  {
  }

  /** Values read at ascending keys of a valid store carry ascending ids. */
  lemma IncreasingIds(s: Store, r: seq<Listing>, ids: seq<int>)
    requires Increasing(ids) && |r| == |ids|
    requires forall i :: 0 <= i < |ids| ==> ids[i] in s.listings && r[i] == s.listings[ids[i]]
    ensures Valid(s) ==> forall i, j :: 0 <= i < j < |r| ==> r[i].id < r[j].id
  {
  }
}
