/**
 * The order handlers: validation of new orders and pricing from the
 * listing, the paged query with its page count, partial updates,
 * cancellation, and status changes restricted to a fixed set of statuses.
 */
module OrderService {
  import opened Results
  import opened Records
  import Storage
  import opened Rpc

  const Cancelled := "cancelled"

  /** The statuses a status change may set; "cancelled" is reached only by cancelling. */
  const SettableStatuses: set<string> := {"pending", "confirmed", "shipped", "delivered"}

  datatype OrdersRequest = OrdersRequest(userId: int, status: string, page: int, limit: int)

  datatype Pagination = Pagination(total: nat, pages: nat)

  datatype OrdersResponse = OrdersResponse(orders: seq<Order>, pagination: Pagination)

  datatype OrderCreate = OrderCreate(listingId: int, quantity: int, shippingAddress: Option<Address>, buyerNotes: string)

  /** The body of an update request; a value that is not positive means "not given". */
  datatype OrderUpdate = OrderUpdate(userId: int, listingId: int, quantity: int, totalPrice: real)

  datatype Cancellation = Cancellation(message: string, order: Order)

  /**
   * `pages` pages of `perPage` orders hold `total` orders with none of
   * them empty: the ceiling of `total / perPage`.
   */
  predicate IsPageCount(pages: nat, perPage: nat, total: nat) {
    pages * perPage >= total && (pages == 0 || (pages - 1) * perPage < total)
  }

  /** The number of pages of `perPage` orders that `total` orders fill. */
  function PageCount(total: nat, perPage: nat): (pages: nat)
    requires perPage >= 1
    ensures IsPageCount(pages, perPage, total)
  {
    var q := (total + perPage - 1) / perPage;
    assert IsPageCount(q, perPage, total) by {
      DivisionBounds(total + perPage - 1, perPage);
    }
    q
  }

  lemma DivisionBounds(n: nat, d: nat)
    requires d >= 1
    ensures (n / d) * d <= n < (n / d) * d + d
  {
  }

  /**
   * A page of the orders a query selects, with the number of orders it
   * selects and the number of pages they fill at the requested limit.
   */
  function GetOrders(s: Storage.Store, req: OrdersRequest): (r: Reply<OrdersResponse>)
    ensures r.store == s
    ensures r.result.Ok?
    ensures r.result.value.pagination.total == |Storage.MatchingOrderIds(s, req.userId, req.status)|
    ensures IsPageCount(r.result.value.pagination.pages, Storage.EffectiveLimit(req.limit), r.result.value.pagination.total)
    ensures r.result.value.orders == Storage.GetOrders(s, req.userId, req.status, req.page, req.limit).orders
  {
    var page := Storage.GetOrders(s, req.userId, req.status, req.page, req.limit);
    var pages := PageCount(page.total, Storage.EffectiveLimit(req.limit));
    Reply(s, Ok(OrdersResponse(page.orders, Pagination(page.total, pages))))
  }

  /** Page `page` (from 1) of `total` items in pages of `perPage` starts before the end iff it is within the page count. */
  lemma StartsBeforeEndIffWithin(page: int, perPage: nat, pages: nat, total: nat)
    requires page >= 1 && perPage >= 1
    requires IsPageCount(pages, perPage, total)
    ensures (page - 1) * perPage < total <==> page <= pages
  {
    if page <= pages {
      MulMonotone(page - 1, pages - 1, perPage);
    } else {
      MulMonotone(pages, page - 1, perPage);
    }
  }

  /** A page numbered from 1 holds orders exactly when its number is at most the page count. */
  lemma PageHoldsOrdersIffWithinPageCount(s: Storage.Store, req: OrdersRequest)
    requires req.page >= 1
    ensures var r := GetOrders(s, req).result.value;
      r.orders != [] <==> req.page <= r.pagination.pages
  {
    var r := GetOrders(s, req).result.value;
    StartsBeforeEndIffWithinPageCount(req.page, req.limit, r.pagination.total);
  }

  /** Page `page`, counted from 1, starts before the end of `total` orders iff it is within their page count. */
  lemma StartsBeforeEndIffWithinPageCount(page: int, limit: int, total: nat)
    requires page >= 1
    ensures Storage.PageStart(page, limit) < total <==> page <= PageCount(total, Storage.EffectiveLimit(limit))
  {
    Storage.PageStartOf(page, limit);
    StartsBeforeEndIffWithin(page, Storage.EffectiveLimit(limit), PageCount(total, Storage.EffectiveLimit(limit)), total);
  }

  lemma MulMonotone(a: int, b: int, c: int)
    requires 0 <= a <= b && c >= 0
    ensures a * c <= b * c
  {
  }

  /** Every order on a page matches the query, and a page lists ids in ascending order. */
  lemma GetOrdersMatch(s: Storage.Store, req: OrdersRequest)
    ensures var r := GetOrders(s, req).result.value;
      forall i :: 0 <= i < |r.orders| ==>
        r.orders[i] in s.orders.Values && Storage.OrderMatches(r.orders[i], req.userId, req.status)
    ensures var r := GetOrders(s, req).result.value;
      Storage.Valid(s) ==> forall i, j :: 0 <= i < j < |r.orders| ==> r.orders[i].id < r.orders[j].id
  {
    Storage.GetOrdersPageMatches(s, req.userId, req.status, req.page, req.limit);
    if Storage.Valid(s) {
      Storage.GetOrdersPageAscending(s, req.userId, req.status, req.page, req.limit);
    }
  }

  /** The request fields a new order cannot do without. */
  predicate HasRequiredFields(req: OrderCreate) {
    req.listingId > 0 && req.quantity > 0 && req.shippingAddress.Some?
  }

  /** The address fields a shipment cannot do without; state and zip code are optional. */
  predicate AddressComplete(a: Address) {
    a.street != "" && a.city != "" && a.country != ""
  }

  /**
   * Places an order for the context user. Checks run in order: required
   * fields, the shipping address, then the listing's existence; the total
   * is the listing's price times the quantity.
   */
  function CreateOrder(s: Storage.Store, req: OrderCreate, now: Time): (r: Reply<Order>)
    ensures !HasRequiredFields(req) ==>
      r == Reply(s, Err(RpcError(InvalidArgument, "ListingId, quantity, and shipping address are required")))
    ensures HasRequiredFields(req) && !AddressComplete(req.shippingAddress.value) ==>
      r == Reply(s, Err(RpcError(InvalidArgument, "Street, city, and country are required in shipping address")))
    ensures HasRequiredFields(req) && AddressComplete(req.shippingAddress.value) && req.listingId !in s.listings ==>
      r == Reply(s, Err(RpcError(NotFound, "Listing not found")))
    ensures r.result.Ok? <==>
      HasRequiredFields(req) && AddressComplete(req.shippingAddress.value) && req.listingId in s.listings
    ensures r.result.Ok? ==>
      var o := r.result.value;
      && o.id == s.nextOrderId
      && o.userId == ContextUserId
      && o.listingId == req.listingId
      && o.quantity == req.quantity
      && o.totalPrice == s.listings[req.listingId].price * req.quantity as real
      && o.status == Pending
      && o.shippingAddress == req.shippingAddress
      && o.buyerNotes == req.buyerNotes
      && o.createdAt == o.updatedAt == Some(now)
      && o.cancelledAt == None && o.cancelReason == ""
      && r.store == s.(orders := s.orders[o.id := o], nextOrderId := s.nextOrderId + 1)
    ensures Consistent(s) ==> Consistent(r.store)
  {
    if !HasRequiredFields(req) then
      Reply(s, Err(RpcError(InvalidArgument, "ListingId, quantity, and shipping address are required")))
    else if !AddressComplete(req.shippingAddress.value) then
      Reply(s, Err(RpcError(InvalidArgument, "Street, city, and country are required in shipping address")))
    else
      match Storage.GetListing(s, req.listingId)
      case Err(e) => Reply(s, Err(FromStoreError(e, "Listing not found", "Failed to get listing")))
      case Ok(listing) =>
        var order := Order(0, ContextUserId, req.listingId, req.quantity, listing.price * req.quantity as real,
                           Pending, req.shippingAddress, req.buyerNotes, None, None, None, "");
        var created := Storage.CreateOrder(s, order, now);
        match created.result
        case Err(_) => Reply(created.store, Err(RpcError(Internal, "Failed to create order")))
        case Ok(stored) => Reply(created.store, Ok(stored))
  }

  function GetOrder(s: Storage.Store, id: int): (r: Reply<Order>)
    ensures r.store == s
    ensures id !in s.orders ==> r.result == Err(RpcError(NotFound, "Order not found"))
    ensures id in s.orders ==> r.result == Ok(s.orders[id])
  {
    match Storage.GetOrder(s, id)
    case Err(e) => Reply(s, Err(FromStoreError(e, "Order not found", "Failed to get order")))
    case Ok(o) => Reply(s, Ok(o))
  }

  /** The order an update request produces from the stored one: positive values override. */
  function Merge(existing: Order, req: OrderUpdate): (m: Order)
    ensures m.userId == (if req.userId > 0 then req.userId else existing.userId)
    ensures m.listingId == (if req.listingId > 0 then req.listingId else existing.listingId)
    ensures m.quantity == (if req.quantity > 0 then req.quantity else existing.quantity)
    ensures m.totalPrice == (if req.totalPrice > 0.0 then req.totalPrice else existing.totalPrice)
    ensures m == existing.(userId := m.userId, listingId := m.listingId, quantity := m.quantity, totalPrice := m.totalPrice)
  {
    existing.(
      userId := if req.userId > 0 then req.userId else existing.userId,
      listingId := if req.listingId > 0 then req.listingId else existing.listingId,
      quantity := if req.quantity > 0 then req.quantity else existing.quantity,
      totalPrice := if req.totalPrice > 0.0 then req.totalPrice else existing.totalPrice)
  }

  /**
   * Partial update of the owner, listing, quantity and total; the status,
   * address, notes and cancellation fields are kept. The total is not
   * recomputed from the listing, and the listing is not looked up.
   */
  function UpdateOrder(s: Storage.Store, id: int, req: OrderUpdate, now: Time): (r: Reply<Order>)
    ensures id !in s.orders ==> r == Reply(s, Err(RpcError(NotFound, "Order not found")))
    ensures id in s.orders ==>
      var prev := s.orders[id];
      && r.result.Ok?
      && r.result.value == Merge(prev, req).(id := id, updatedAt := Some(now))
      && r.result.value.status == prev.status
      && r.result.value.createdAt == prev.createdAt
      && r.store == s.(orders := s.orders[id := r.result.value])
    ensures Consistent(s) ==> Consistent(r.store)
  {
    match Storage.GetOrder(s, id)
    case Err(e) => Reply(s, Err(FromStoreError(e, "Order not found", "Failed to get order")))
    case Ok(existing) =>
      var written := Storage.UpdateOrder(s, id, Merge(existing, req).(updatedAt := Some(now)), now);
      match written.result
      case Err(_) => Reply(written.store, Err(RpcError(Internal, "Failed to update order")))
      case Ok(stored) => Reply(written.store, Ok(stored))
  }

  function DeleteOrder(s: Storage.Store, id: int): (r: Reply<string>)
    ensures id !in s.orders ==> r == Reply(s, Err(RpcError(NotFound, "Order not found")))
    ensures id in s.orders ==>
      && r.result == Ok("Order deleted successfully")
      && Storage.GetOrder(r.store, id).Err?
      && (forall k :: k != id ==> Storage.GetOrder(r.store, k) == Storage.GetOrder(s, k))
      && r.store == s.(orders := r.store.orders)
    ensures Consistent(s) ==> Consistent(r.store)
  {
    var deleted := Storage.DeleteOrder(s, id);
    match deleted.result
    case Err(e) => Reply(deleted.store, Err(FromStoreError(e, "Order not found", "Failed to delete order")))
    case Ok(_) => Reply(deleted.store, Ok("Order deleted successfully"))
  }

  /**
   * Cancels an order whatever its status, recording the reason and the
   * time of cancellation.
   */
  function CancelOrder(s: Storage.Store, id: int, reason: string, now: Time): (r: Reply<Cancellation>)
    ensures id !in s.orders ==> r == Reply(s, Err(RpcError(NotFound, "Order not found")))
    ensures id in s.orders ==>
      var prev := s.orders[id];
      && r.result.Ok?
      && r.result.value.message == "Order cancelled successfully"
      && r.result.value.order
         == prev.(id := id, status := Cancelled, cancelledAt := Some(now), cancelReason := reason, updatedAt := Some(now))
      && r.store == s.(orders := s.orders[id := r.result.value.order])
    ensures Consistent(s) ==> Consistent(r.store)
  {
    match Storage.GetOrder(s, id)
    case Err(e) => Reply(s, Err(FromStoreError(e, "Order not found", "Failed to get order")))
    case Ok(existing) =>
      var cancelled := existing.(status := Cancelled, updatedAt := Some(now), cancelledAt := Some(now), cancelReason := reason);
      var written := Storage.UpdateOrder(s, id, cancelled, now);
      match written.result
      case Err(_) => Reply(written.store, Err(RpcError(Internal, "Failed to cancel order")))
      case Ok(stored) => Reply(written.store, Ok(Cancellation("Order cancelled successfully", stored)))
  }

  /**
   * Sets an order's status. The new status is checked before the order is
   * looked up; the current status does not restrict the change.
   */
  function UpdateOrderStatus(s: Storage.Store, id: int, status: string, now: Time): (r: Reply<Order>)
    ensures status !in SettableStatuses ==>
      r == Reply(s, Err(RpcError(InvalidArgument, "Invalid status. Must be: pending, confirmed, shipped, or delivered")))
    ensures status in SettableStatuses && id !in s.orders ==>
      r == Reply(s, Err(RpcError(NotFound, "Order not found")))
    ensures r.result.Ok? <==> status in SettableStatuses && id in s.orders
    ensures r.result.Ok? ==>
      && r.result.value == s.orders[id].(id := id, status := status, updatedAt := Some(now))
      && r.result.value.status != Cancelled
      && r.store == s.(orders := s.orders[id := r.result.value])
    ensures Consistent(s) ==> Consistent(r.store)
  {
    if status !in SettableStatuses then
      Reply(s, Err(RpcError(InvalidArgument, "Invalid status. Must be: pending, confirmed, shipped, or delivered")))
    else
      match Storage.GetOrder(s, id)
      case Err(e) => Reply(s, Err(FromStoreError(e, "Order not found", "Failed to get order")))
      case Ok(existing) =>
        var written := Storage.UpdateOrder(s, id, existing.(status := status, updatedAt := Some(now)), now);
        match written.result
        case Err(_) => Reply(written.store, Err(RpcError(Internal, "Failed to update order status")))
        case Ok(stored) => Reply(written.store, Ok(stored))
  }

  /** A created order is found under its id, and is counted once more among its owner's pending orders. */
  lemma CreatedOrderIsFound(s: Storage.Store, req: OrderCreate, now: Time)
    requires Storage.Valid(s)
    requires CreateOrder(s, req, now).result.Ok?
    ensures var r := CreateOrder(s, req, now);
      && GetOrder(r.store, r.result.value.id).result == r.result
      && Storage.MatchingOrderIds(r.store, ContextUserId, Pending)
         == Storage.MatchingOrderIds(s, ContextUserId, Pending) + {r.result.value.id}
      && r.result.value.id !in Storage.MatchingOrderIds(s, ContextUserId, Pending)
  {
  }

  /** Setting the same status twice at the same time is the same as setting it once. */
  lemma UpdateOrderStatusIdempotent(s: Storage.Store, id: int, status: string, now: Time)
    ensures var once := UpdateOrderStatus(s, id, status, now);
      UpdateOrderStatus(once.store, id, status, now) == once
  {
  }

  /**
   * Status changes do not consult the current status: a cancelled order
   * can be set back to pending.
   */
  lemma CancelledOrderCanBeReopened(s: Storage.Store, id: int, reason: string, now: Time, later: Time)
    requires id in s.orders
    ensures var cancelled := CancelOrder(s, id, reason, now).store;
      && cancelled.orders[id].status == Cancelled
      && UpdateOrderStatus(cancelled, id, Pending, later).result.Ok?
      && UpdateOrderStatus(cancelled, id, Pending, later).result.value.status == Pending
  {
  }

  /** No status change, partial update or cancellation alters an order's total, owner or creation time. */
  lemma LifecycleKeepsTotal(s: Storage.Store, id: int, status: string, reason: string, now: Time)
    requires id in s.orders
    ensures var r := UpdateOrderStatus(s, id, status, now);
      r.result.Ok? ==>
        && r.result.value.totalPrice == s.orders[id].totalPrice
        && r.result.value.userId == s.orders[id].userId
        && r.result.value.createdAt == s.orders[id].createdAt
    ensures var r := CancelOrder(s, id, reason, now);
      && r.result.value.order.totalPrice == s.orders[id].totalPrice
      && r.result.value.order.userId == s.orders[id].userId
      && r.result.value.order.createdAt == s.orders[id].createdAt
    ensures var r := UpdateOrder(s, id, OrderUpdate(0, 0, 0, 0.0), now);
      r.result.value == s.orders[id].(id := id, updatedAt := Some(now))
  {
  }
}
