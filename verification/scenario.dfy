/**
 * One walk through the marketplace from a fresh store: register a user,
 * fail to register a second one with the same email, list an item, order
 * three of it, ship the order, and delist the item.
 */
module Scenario {
  import opened Results
  import opened Records
  import Storage
  import opened Rpc
  import UserService
  import ListingService
  import OrderService

  const Home := Address("1 Main St", "Springfield", "", "", "US")

  /** The whole walk: registration, then trading on the store registration leaves. */
  lemma Walkthrough(hash: string -> string, t0: Time, t1: Time, t2: Time)
    ensures var s0 := Storage.NewStore();
      var r1 := UserService.CreateUser(s0, UserService.UserCreate("alice", "a@x.com", "secret"), hash);
      var r2 := UserService.CreateUser(r1.store, UserService.UserCreate("bob", "a@x.com", "other"), hash);
      var r3 := ListingService.CreateListing(r2.store,
                  ListingService.ListingCreate("Lamp", "Desk lamp", 100.0, "home", "used", "Springfield", []), t0);
      var r4 := OrderService.CreateOrder(r3.store, OrderService.OrderCreate(1, 3, Some(Home), ""), t1);
      var r5 := OrderService.UpdateOrderStatus(r4.store, 1, "shipped", t2);
      var r6 := ListingService.DeleteListing(r5.store, 1);
      && r1.result == Ok(User(1, "alice", "a@x.com"))
      && r2 == Reply(r1.store, Err(RpcError(AlreadyExists, "Email already exists")))
      && r2.store.nextUserId == 2
      && r3.result.Ok? && r3.result.value.id == 1 && r3.result.value.userId == 1
      && r4.result.Ok? && r4.result.value.id == 1
      && r4.result.value.totalPrice == 300.0 && r4.result.value.status == "pending"
      && r5.result.Ok? && r5.result.value.status == "shipped"
      && r5.result.value.totalPrice == 300.0 && r5.result.value.createdAt == Some(t1)
      && r6.result.Ok? && ListingService.GetListing(r6.store, 1).result.Err?
      && r6.store.orders == r5.store.orders
  {
    Registration(hash);
    var s0 := Storage.NewStore();
    var r1 := UserService.CreateUser(s0, UserService.UserCreate("alice", "a@x.com", "secret"), hash);
    var r2 := UserService.CreateUser(r1.store, UserService.UserCreate("bob", "a@x.com", "other"), hash);
    Trading(r2.store, t0, t1, t2);
  }

  /** Alice registers as user 1; Bob's registration with her email is refused and uses up no id. */
  lemma Registration(hash: string -> string)
    ensures var s0 := Storage.NewStore();
      var r1 := UserService.CreateUser(s0, UserService.UserCreate("alice", "a@x.com", "secret"), hash);
      var r2 := UserService.CreateUser(r1.store, UserService.UserCreate("bob", "a@x.com", "other"), hash);
      && r1.result == Ok(User(1, "alice", "a@x.com"))
      && r2 == Reply(r1.store, Err(RpcError(AlreadyExists, "Email already exists")))
      && r2.store.nextUserId == 2
      && r2.store.listings == map[] && r2.store.nextListingId == 1
      && r2.store.orders == map[] && r2.store.nextOrderId == 1
  {
    var s0 := Storage.NewStore();
    var r1 := UserService.CreateUser(s0, UserService.UserCreate("alice", "a@x.com", "secret"), hash);
    assert !Storage.EmailTaken(s0, "a@x.com");
    assert r1.result == Ok(User(1, "alice", "a@x.com"));
    assert r1.store.users == map[1 := User(1, "alice", "a@x.com")];
    assert Storage.EmailTaken(r1.store, "a@x.com");
  }

  /**
   * On a store with no listings or orders yet: a lamp listed at 100 becomes
   * listing 1; three of it ordered come to 300, pending; shipping keeps the
   * total and creation time; delisting the lamp leaves the order alone.
   */
  lemma Trading(s: Storage.Store, t0: Time, t1: Time, t2: Time)
    requires s.listings == map[] && s.nextListingId == 1
    requires s.orders == map[] && s.nextOrderId == 1
    ensures var r3 := ListingService.CreateListing(s,
                  ListingService.ListingCreate("Lamp", "Desk lamp", 100.0, "home", "used", "Springfield", []), t0);
      var r4 := OrderService.CreateOrder(r3.store, OrderService.OrderCreate(1, 3, Some(Home), ""), t1);
      var r5 := OrderService.UpdateOrderStatus(r4.store, 1, "shipped", t2);
      var r6 := ListingService.DeleteListing(r5.store, 1);
      && r3.result.Ok? && r3.result.value.id == 1 && r3.result.value.userId == 1
      && r4.result.Ok? && r4.result.value.id == 1
      && r4.result.value.totalPrice == 300.0 && r4.result.value.status == "pending"
      && r5.result.Ok? && r5.result.value.status == "shipped"
      && r5.result.value.totalPrice == 300.0 && r5.result.value.createdAt == Some(t1)
      && r6.result.Ok? && ListingService.GetListing(r6.store, 1).result.Err?
      && r6.store.orders == r5.store.orders
  {
    var r3 := ListingService.CreateListing(s,
                ListingService.ListingCreate("Lamp", "Desk lamp", 100.0, "home", "used", "Springfield", []), t0);
    assert r3.result.Ok?;
    var r4 := OrderService.CreateOrder(r3.store, OrderService.OrderCreate(1, 3, Some(Home), ""), t1);
    assert r4.result.Ok?;
    var r5 := OrderService.UpdateOrderStatus(r4.store, 1, "shipped", t2);
    assert "shipped" in OrderService.SettableStatuses;
  }

  const TestAddress := Address("123 Test St", "Test City", "", "", "USA")

  /**
   * The order service's own test, from a fresh store: a listing at 100
   * ordered twice comes to 200; the order reads back under its id; it can
   * be shipped, then cancelled; and the first page of all orders holds it.
   */
  lemma OrderServiceTest(t0: Time, t1: Time, t2: Time, t3: Time)
    ensures var l := ListingService.CreateListing(Storage.NewStore(),
                  ListingService.ListingCreate("Test Product", "Test description", 100.0, "test", "new", "", []), t0);
      var o := OrderService.CreateOrder(l.store, OrderService.OrderCreate(1, 2, Some(TestAddress), "Test notes"), t1);
      var g := OrderService.GetOrder(o.store, 1);
      var u := OrderService.UpdateOrderStatus(o.store, 1, "shipped", t2);
      var c := OrderService.CancelOrder(u.store, 1, "Test cancellation", t3);
      var q := OrderService.GetOrders(c.store, OrderService.OrdersRequest(0, "", 1, 10));
      && l.result.Ok? && l.result.value.id == 1
      && o.result.Ok? && o.result.value.id == 1 && o.result.value.totalPrice == 200.0
      && g.result.Ok? && g.result.value.id == 1
      && u.result.Ok? && u.result.value.status == "shipped"
      && c.result.Ok? && c.result.value.order.status == "cancelled"
      && q.result.Ok? && q.result.value.orders != []
  {
    var l := ListingService.CreateListing(Storage.NewStore(),
               ListingService.ListingCreate("Test Product", "Test description", 100.0, "test", "new", "", []), t0);
    var o := OrderService.CreateOrder(l.store, OrderService.OrderCreate(1, 2, Some(TestAddress), "Test notes"), t1);
    TestOrderPlaced(t0, t1);
    TestOrderLifecycle(o.store, t2, t3);
  }

  /** Listing 1 at 100 is created, and an order for two of it becomes order 1 at 200. */
  lemma TestOrderPlaced(t0: Time, t1: Time)
    ensures var l := ListingService.CreateListing(Storage.NewStore(),
                  ListingService.ListingCreate("Test Product", "Test description", 100.0, "test", "new", "", []), t0);
      var o := OrderService.CreateOrder(l.store, OrderService.OrderCreate(1, 2, Some(TestAddress), "Test notes"), t1);
      && l.result.Ok? && l.result.value.id == 1
      && o.result.Ok? && o.result.value.id == 1 && o.result.value.totalPrice == 200.0
      && 1 in o.store.orders && Storage.Valid(o.store)
  {
    TestListingCreated(t0);
    var l := ListingService.CreateListing(Storage.NewStore(),
               ListingService.ListingCreate("Test Product", "Test description", 100.0, "test", "new", "", []), t0);
    TwoOrderedAtHundred(l.store, t1);
  }

  /** The test's listing is created on a fresh store as listing 1, at its price of 100. */
  lemma TestListingCreated(t0: Time)
    ensures var l := ListingService.CreateListing(Storage.NewStore(),
                  ListingService.ListingCreate("Test Product", "Test description", 100.0, "test", "new", "", []), t0);
      && l.result.Ok? && l.result.value.id == 1
      && Storage.Valid(l.store) && 1 in l.store.listings && l.store.listings[1].price == 100.0
      && l.store.nextOrderId == 1
  {
  }

  /** On a valid store whose listing 1 costs 100 and whose next order is 1, two of it make order 1 at 200. */
  lemma TwoOrderedAtHundred(s: Storage.Store, t1: Time)
    requires Storage.Valid(s) && 1 in s.listings && s.listings[1].price == 100.0 && s.nextOrderId == 1
    ensures var o := OrderService.CreateOrder(s, OrderService.OrderCreate(1, 2, Some(TestAddress), "Test notes"), t1);
      && o.result.Ok? && o.result.value.id == 1 && o.result.value.totalPrice == 200.0
      && 1 in o.store.orders && Storage.Valid(o.store)
  {
  }

  /** A live order 1 reads back, can be shipped and then cancelled, and stays on the first page of all orders. */
  lemma TestOrderLifecycle(s: Storage.Store, t2: Time, t3: Time)
    requires Storage.Valid(s) && 1 in s.orders
    ensures var g := OrderService.GetOrder(s, 1);
      var u := OrderService.UpdateOrderStatus(s, 1, "shipped", t2);
      var c := OrderService.CancelOrder(u.store, 1, "Test cancellation", t3);
      var q := OrderService.GetOrders(c.store, OrderService.OrdersRequest(0, "", 1, 10));
      && g.result.Ok? && g.result.value.id == 1
      && u.result.Ok? && u.result.value.status == "shipped"
      && c.result.Ok? && c.result.value.order.status == "cancelled"
      && q.result.Ok? && q.result.value.orders != []
  {
    var u := OrderService.UpdateOrderStatus(s, 1, "shipped", t2);
    assert "shipped" in OrderService.SettableStatuses;
    var c := OrderService.CancelOrder(u.store, 1, "Test cancellation", t3);
    FirstPageHoldsLiveOrder(c.store, 1);
  }

  /** When some order is live, the first page of an unfiltered query is not empty. */
  lemma FirstPageHoldsLiveOrder(s: Storage.Store, id: int)
    requires id in s.orders
    ensures OrderService.GetOrders(s, OrderService.OrdersRequest(0, "", 1, 10)).result.value.orders != []
  {
    var req := OrderService.OrdersRequest(0, "", 1, 10);
    assert id in Storage.MatchingOrderIds(s, 0, "");
    OrderService.PageHoldsOrdersIffWithinPageCount(s, req);
    var r := OrderService.GetOrders(s, req).result.value;
    assert r.pagination.total >= 1;
  }
}
