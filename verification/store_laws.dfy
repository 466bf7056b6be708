/**
 * Laws relating the store's operations to each other: what a lookup sees
 * after a create, an update or a delete; what a fresh store holds; how the
 * listing search treats letter case; and which operations keep emails
 * unique.
 */
module StoreLaws {
  import opened Results
  import opened Records
  import opened Text
  import opened Storage
  import Rpc

  /** A fresh store finds nothing, by id, by email or by query. */
  lemma NewStoreFindsNothing(id: int, email: string, search: string, priceMin: real, priceMax: real,
                             userId: int, status: string, page: int, limit: int)
    ensures GetUser(NewStore(), id) == Err(NotFound(UserResource, ById(id)))
    ensures GetUserByEmail(NewStore(), email) == Err(NotFound(UserResource, ByEmail(email)))
    ensures GetUserPassword(NewStore(), id) == None
    ensures GetListing(NewStore(), id) == Err(NotFound(ListingResource, ById(id)))
    ensures GetOrder(NewStore(), id) == Err(NotFound(OrderResource, ById(id)))
    ensures GetListings(NewStore(), search, priceMin, priceMax) == []
    ensures GetOrders(NewStore(), userId, status, page, limit) == OrdersPage([], 0)
  {
    assert MatchingListingIds(NewStore(), search, priceMin, priceMax) == {};
    assert MatchingOrderIds(NewStore(), userId, status) == {};
  }

  /** A created user is found under the id it was given, and by its email. */
  lemma GetAfterCreateUser(s: Store, u: User)
    requires CreateUser(s, u).result.Ok?
    ensures var o := CreateUser(s, u);
      && GetUser(o.store, o.result.value.id) == Ok(o.result.value)
      && o.result.value.id == s.nextUserId
      && GetUserByEmail(o.store, u.email) == Ok(o.result.value)
  {
    var o := CreateUser(s, u);
    assert !EmailTaken(s, u.email);
    SoleHolderIsFound(o.store, s.nextUserId, u.email);
  }

  /** When exactly one live user has an email, the lookup by that email finds that user. */
  lemma SoleHolderIsFound(s: Store, id: int, email: string)
    requires id in s.users && s.users[id].email == email
    requires forall k :: k in s.users && k != id ==> s.users[k].email != email
    ensures GetUserByEmail(s, email) == Ok(s.users[id])
  {
    var r := GetUserByEmail(s, email);
    var j :| j in s.users && s.users[j] == r.value;
  }

  /** A created listing is found under the id it was given. */
  lemma GetAfterCreateListing(s: Store, l: Listing, now: Time)
    ensures var o := CreateListing(s, l, now);
      GetListing(o.store, s.nextListingId) == Ok(o.result.value) && o.result.value.id == s.nextListingId
  {
  }

  /** A created order is found under the id it was given, pending whatever status it was handed. */
  lemma GetAfterCreateOrder(s: Store, o: Order, now: Time)
    ensures var out := CreateOrder(s, o, now);
      && GetOrder(out.store, s.nextOrderId) == Ok(out.result.value)
      && out.result.value.id == s.nextOrderId
      && out.result.value.status == Pending
  {
  }

  /** A lookup after an update of a live listing sees the stored record; other ids see what they saw before. */
  lemma GetAfterUpdateListing(s: Store, id: int, l: Listing, now: Time, k: int)
    requires id in s.listings
    ensures var o := UpdateListing(s, id, l, now);
      && GetListing(o.store, id) == o.result
      && (k != id ==> GetListing(o.store, k) == GetListing(s, k))
  {
  }

  lemma GetAfterUpdateOrder(s: Store, id: int, o: Order, now: Time, k: int)
    requires id in s.orders
    ensures var out := UpdateOrder(s, id, o, now);
      && GetOrder(out.store, id) == out.result
      && (k != id ==> GetOrder(out.store, k) == GetOrder(s, k))
  {
  }

  /**
   * After a delete the record is gone, and deleting it again fails without
   * changing anything; when the id was never live the first delete is that
   * failure already. A live user's password hash goes with it.
   */
  lemma DeleteTwice(s: Store, id: int)
    ensures var t := DeleteListing(s, id).store;
      GetListing(t, id).Err? && DeleteListing(t, id) == Outcome(t, Err(NotFound(ListingResource, ById(id))))
    ensures var t := DeleteOrder(s, id).store;
      GetOrder(t, id).Err? && DeleteOrder(t, id) == Outcome(t, Err(NotFound(OrderResource, ById(id))))
    ensures var t := DeleteUser(s, id).store;
      && GetUser(t, id).Err?
      && DeleteUser(t, id) == Outcome(t, Err(NotFound(UserResource, ById(id))))
      && (id in s.users ==> GetUserPassword(t, id).None?)
  {
  }

  /** Deleting a listing leaves the orders that refer to it untouched: there is no cascade. */
  lemma DeleteListingKeepsOrders(s: Store, id: int)
    ensures DeleteListing(s, id).store.orders == s.orders
  {
  }

  /** Whether a listing matches does not depend on the letter case of the search term. */
  lemma MatchIgnoresTermCase(l: Listing, search: string, priceMin: real, priceMax: real)
    ensures ListingMatches(l, search, priceMin, priceMax) == ListingMatches(l, ToLower(search), priceMin, priceMax)
  {
    ContainsFoldIgnoresTermCase(l.title, search);
    ContainsFoldIgnoresTermCase(l.description, search);
    assert search == "" <==> ToLower(search) == "";
  }

  /** A listing is in the search result exactly when it is live and matches. */
  lemma InSearchResultIffMatches(s: Store, search: string, priceMin: real, priceMax: real, l: Listing)
    ensures l in GetListings(s, search, priceMin, priceMax) <==> l in s.listings.Values && ListingMatches(l, search, priceMin, priceMax)
  {
    var r := GetListings(s, search, priceMin, priceMax);
    if l in r {
      var i :| 0 <= i < |r| && r[i] == l;
    }
    if l in s.listings.Values {
      var k :| k in s.listings && s.listings[k] == l;
    }
  }

  /** The listing search selects the same listings whatever the letter case of the search term. */
  lemma SearchIgnoresTermCase(s: Store, search: string, priceMin: real, priceMax: real)
    ensures MatchingListingIds(s, search, priceMin, priceMax) == MatchingListingIds(s, ToLower(search), priceMin, priceMax)
    ensures forall l :: l in GetListings(s, search, priceMin, priceMax) <==> l in GetListings(s, ToLower(search), priceMin, priceMax)
  {
    forall l: Listing
      ensures ListingMatches(l, search, priceMin, priceMax) == ListingMatches(l, ToLower(search), priceMin, priceMax)
      ensures l in GetListings(s, search, priceMin, priceMax) <==> l in GetListings(s, ToLower(search), priceMin, priceMax)
    {
      MatchIgnoresTermCase(l, search, priceMin, priceMax);
      InSearchResultIffMatches(s, search, priceMin, priceMax, l);
      InSearchResultIffMatches(s, ToLower(search), priceMin, priceMax, l);
    }
  }

  /** Creating a user keeps emails unique: a duplicate email is refused. */
  lemma CreateUserKeepsEmailsUnique(s: Store, u: User)
    requires Rpc.UniqueEmails(s)
    ensures Rpc.UniqueEmails(CreateUser(s, u).store)
  {
  }

  /**
   * Updating a user does not check the new email against the others, so
   * two live users can end up sharing one.
   */
  lemma UpdateUserCanDuplicateEmail()
    ensures var s := Store(map[1 := User(1, "ann", "a@x.com"), 2 := User(2, "bob", "b@x.com")], map[], map[], 3, 1, 1, map[]);
      && Valid(s) && Rpc.UniqueEmails(s)
      && !Rpc.UniqueEmails(UpdateUser(s, 2, User(2, "bob", "a@x.com")).store)
  {
    var s := Store(map[1 := User(1, "ann", "a@x.com"), 2 := User(2, "bob", "b@x.com")], map[], map[], 3, 1, 1, map[]);
    var t := UpdateUser(s, 2, User(2, "bob", "a@x.com")).store;
    assert t.users[1].email == t.users[2].email;
  }
}
