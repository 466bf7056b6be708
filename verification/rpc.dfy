/**
 * What the request handlers share: the status codes they answer with, the
 * reply shape, and the consistency the handlers keep between the user
 * records and the password table.
 */
module Rpc {
  import opened Results
  import Storage

  /** The gRPC status codes the handlers use. */
  datatype Code = InvalidArgument | NotFound | AlreadyExists | Unauthenticated | Internal

  datatype RpcError = RpcError(code: Code, message: string)

  /** The store after a handler ran, and the handler's answer. */
  datatype Reply<T> = Reply(store: Storage.Store, result: Result<T, RpcError>)

  /**
   * The user id the handlers attribute new listings and orders to. The
   * original reads it from the request context but always answers 1.
   */
  const ContextUserId := 1

  /**
   * The handlers' mapping of a store failure: a not-found failure becomes
   * NotFound with `notFound` as message; any other failure is Internal.
   */
  function FromStoreError(e: Storage.StoreError, notFound: string, internal: string): (r: RpcError)
    ensures r.code == NotFound <==> e.NotFound?
    ensures r.code == NotFound ==> r.message == notFound
    ensures r.code != NotFound ==> r == RpcError(Internal, internal)
  {
    if e.NotFound? then RpcError(NotFound, notFound) else RpcError(Internal, internal)
  }

  /**
   * The store invariant plus what the handlers add on top of it: exactly
   * the live users have a password hash.
   */
  predicate Consistent(s: Storage.Store) {
    Storage.Valid(s) && s.passwords.Keys == s.users.Keys
  }

  /** No two live users share an email. */
  predicate UniqueEmails(s: Storage.Store) {
    forall j, k :: j in s.users && k in s.users && s.users[j].email == s.users[k].email ==> j == k
  }

  /** The listing and order tables and their counters are untouched between `s` and `t`. */
  predicate ListingsAndOrdersUnchanged(s: Storage.Store, t: Storage.Store) {
    && t.listings == s.listings && t.nextListingId == s.nextListingId
    && t.orders == s.orders && t.nextOrderId == s.nextOrderId
  }
}
