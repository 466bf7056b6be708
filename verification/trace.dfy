/**
 * Sequences of store operations. Whatever operations run, from whatever
 * valid store, the invariant holds afterwards, no counter goes back, and an
 * id that was handed out and then deleted is never live again.
 */
module Trace {
  import opened Records
  import opened Storage

  datatype Op =
    | CreateUserOp(user: User)
    | UpdateUserOp(id: int, user: User)
    | DeleteUserOp(id: int)
    | SetPasswordOp(id: int, hash: string)
    | CreateListingOp(listing: Listing, now: Time)
    | UpdateListingOp(id: int, listing: Listing, now: Time)
    | DeleteListingOp(id: int)
    | CreateOrderOp(order: Order, now: Time)
    | UpdateOrderOp(id: int, order: Order, now: Time)
    | DeleteOrderOp(id: int)

  /** The store after one operation; reads do not change it and are left out. */
  function Step(s: Store, op: Op): Store {
    match op
    case CreateUserOp(u) => CreateUser(s, u).store
    case UpdateUserOp(id, u) => UpdateUser(s, id, u).store
    case DeleteUserOp(id) => DeleteUser(s, id).store
    case SetPasswordOp(id, h) => SetUserPassword(s, id, h)
    case CreateListingOp(l, now) => CreateListing(s, l, now).store
    case UpdateListingOp(id, l, now) => UpdateListing(s, id, l, now).store
    case DeleteListingOp(id) => DeleteListing(s, id).store
    case CreateOrderOp(o, now) => CreateOrder(s, o, now).store
    case UpdateOrderOp(id, o, now) => UpdateOrder(s, id, o, now).store
    case DeleteOrderOp(id) => DeleteOrder(s, id).store
  }

  /** The store after the operations, first to last. */
  function Run(s: Store, ops: seq<Op>): Store
    decreases |ops|
  {
    if ops == [] then s else Run(Step(s, ops[0]), ops[1..])
  }

  /** Ids below the counters of `s` that are not live in `s` are not live in `t`. */
  predicate NoIdReused(s: Store, t: Store) {
    && (forall k :: k < s.nextUserId && k !in s.users ==> k !in t.users)
    && (forall k :: k < s.nextListingId && k !in s.listings ==> k !in t.listings)
    && (forall k :: k < s.nextOrderId && k !in s.orders ==> k !in t.orders)
  }

  /** One operation keeps the invariant, moves no counter back and revives no id. */
  lemma StepKeepsInvariant(s: Store, op: Op)
    requires Valid(s)
    ensures Valid(Step(s, op))
    ensures CountersMonotone(s, Step(s, op))
    ensures NoIdReused(s, Step(s, op))
  {
  }

  /** Any run from a valid store keeps the invariant, moves no counter back and revives no id. */
  lemma {:induction false} RunKeepsInvariant(s: Store, ops: seq<Op>)
    requires Valid(s)
    ensures Valid(Run(s, ops))
    ensures CountersMonotone(s, Run(s, ops))
    ensures NoIdReused(s, Run(s, ops))
    decreases |ops|
  {
    if ops != [] {
      var t := Step(s, ops[0]);
      StepKeepsInvariant(s, ops[0]);
      RunKeepsInvariant(t, ops[1..]);
    }
  }

  /** Every store reached from a fresh one is valid. */
  lemma ReachableIsValid(ops: seq<Op>)
    ensures Valid(Run(NewStore(), ops))
  {
    RunKeepsInvariant(NewStore(), ops);
  }

  /**
   * A user created after a run gets an id no earlier successful creation
   * could have had: it is at least the counter the run started from.
   */
  lemma LaterCreationsGetFreshIds(s: Store, ops: seq<Op>, u: User)
    requires Valid(s)
    requires CreateUser(Run(s, ops), u).result.Ok?
    ensures CreateUser(Run(s, ops), u).result.value.id >= s.nextUserId
    ensures CreateUser(Run(s, ops), u).result.value.id !in Run(s, ops).users
  {
    RunKeepsInvariant(s, ops);
  }
}
