# ebayclone-gRPC: the record store and its request handlers, in Dafny

This project models the marketplace backend's in-memory record store and the
gRPC handlers built on it, and proves properties of the model.

The store holds three collections keyed by id: users, listings and orders.
Each collection has its own id counter, starting at 1. A separate table holds
password hashes keyed by user id. Every store method runs under the store's
lock, so each one is modelled as one atomic step. A step is a pure function
from a `Store` value to a new `Store` plus a result (`Storage.Outcome`).

Each handler is modelled as one step as well: it returns the new store and
either a value or an `RpcError` with the status code and message the original
sends (`Rpc.Reply`). The exception is `SessionService.Login`, which does not
change the store: it takes the store and returns only the token or the
`RpcError`. The original handlers are not atomic: each makes two or
more store calls, each under its own hold of the lock (see "## Left out").
The handlers covered are:

- the user service: registration, lookup, partial update, full replacement, deletion;
- the listing service: validation of new listings, partial update, search;
- the order service: validation and pricing of new orders, the paged query with its page count, partial update, cancellation, status changes;
- the session service: the login decision.

Modules:

- `Results`: `Option` and `Result`.
- `Text`: ASCII lowercasing and substring search (the listing search).
- `Keys`: ascending key order for the maps, and filtering by value.
- `Records`: the user, listing, order and address records.
- `Storage`: the store and its operations.
- `Rpc`: status codes, the reply shape, and the consistency invariant `Rpc.Consistent`: the live users are exactly the ids that have a password hash. Every handler keeps it when it runs alone, with no other handler interleaved.
- `UserService`, `ListingService`, `OrderService`, `SessionService`: one module per handler file.
- `StoreLaws`: lookups after creates, updates and deletes; the fresh store; case-insensitive search; email uniqueness.
- `Trace`: runs of operations keep the store invariant, and ids are never reused.
- `Paging32`: the order query's paging in 32-bit arithmetic, as the original computes it (see Findings).
- `Scenario`: the order service's own test, step by step, and one longer walk through the services.

Collaborators the model cannot see are parameters:

- the password hash function is `hash: string -> string`;
- the clock is `now: Time`;
- the user id the original reads from the request context is the constant `Rpc.ContextUserId` (1), which is what the original returns.

## Model

| member | source | states |
|---|---|---|
| Storage.NewStore | src/storage/storage.go:46-56 | a fresh store is empty in all four tables, has every counter at 1, and satisfies the store invariant |
| Storage.CreateUser | src/storage/storage.go:59-74 | an email held by a live user is refused with UserExists and nothing changes; otherwise the user is stored under the current counter with that id, the counter rises by exactly one, nothing else changes, and the invariant and counter monotonicity are kept |
| Storage.GetUser | src/storage/storage.go:76-85 | succeeds exactly for live ids, with the stored record; otherwise NotFound for that user id |
| Storage.GetUserByEmail | src/storage/storage.go:87-97 | fails with NotFound exactly when no live user has the email (exact, case-sensitive match); otherwise returns a live user with that email and an id no larger than any other holder's |
| Storage.FoundByEmailIsLive | src/storage/storage.go:87-97 | on a valid store the user found by email is stored under its own id |
| Storage.UpdateUser | src/storage/storage.go:99-110 | an absent id fails with nothing changed; a live id is overwritten with the record, forced to carry that id |
| Storage.DeleteUser | src/storage/storage.go:112-123 | an absent id fails with nothing changed; a live id loses both its record and its password hash, and every other entry is kept |
| Storage.GetUserPassword | src/storage/storage.go:131-136 | a hash is returned exactly when one is stored under the id, and it is the stored one |
| Storage.SetUserPassword | src/storage/storage.go:125-136 | the hash reads back for that id, and every other id reads back what it did before |
| Storage.CreateListing | src/storage/storage.go:161-172 | stores the listing under the current counter with creation and update time `now`, and raises the counter by one |
| Storage.GetListing | src/storage/storage.go:174-183 | succeeds exactly for live ids; otherwise NotFound for that listing id |
| Storage.GetListings | src/storage/storage.go:185-209 | returns only live listings that pass all three filters and every such listing, as many entries as matching ids, and under the invariant in ascending id order (the fixed iteration order of the model) |
| Storage.UpdateListing | src/storage/storage.go:211-225 | an absent id fails with nothing changed; otherwise the record is stored with its id forced, the creation time of the stored one, and update time `now` |
| Storage.DeleteListing | src/storage/storage.go:227-237 | an absent id fails with nothing changed; otherwise only that listing is removed |
| Storage.CreateOrder | src/storage/storage.go:240-252 | stores the order under the current counter, pending whatever status it was handed, with equal creation and update times |
| Storage.GetOrder | src/storage/storage.go:254-263 | succeeds exactly for live ids; otherwise NotFound for that order id |
| Storage.GetOrders | src/storage/storage.go:265-302 | the reported total is the number of matching orders whatever the page, and the orders served are that page of the full list of matches |
| Storage.PageOf | src/storage/storage.go:283-301 | page and limit default to 1 and 10; a page starting at or past the end is empty; otherwise it holds min(limit, length - start) elements, those of the list from the page's start on |
| Storage.GetOrdersPageMatches | src/storage/storage.go:269-279 | every order on a page is live and passes the user and status filters |
| Storage.AllMatchingOrdersMatch | src/storage/storage.go:269-279 | every order the query lists is live and passes the user and status filters |
| Storage.AllMatchingOrdersComplete | src/storage/storage.go:269-279 | every live order that passes the filters is listed |
| Storage.AllMatchingOrdersCount | src/storage/storage.go:269-281 | the list has one entry per matching id, so the total counts the matching orders |
| Storage.UpdateOrder | src/storage/storage.go:304-318 | an absent id fails with nothing changed; otherwise the record is stored with its id forced, the stored creation time, and update time `now` |
| Storage.DeleteOrder | src/storage/storage.go:320-330 | an absent id fails with nothing changed; otherwise only that order is removed |
| Text.ToLower | src/storage/storage.go:334 | lowercasing keeps the length, maps each character through the ASCII lowering, and leaves no upper-case letter |
| Text.ToLowerIdempotent | src/storage/storage.go:334 | lowercasing twice is lowercasing once |
| Text.ContainsIffOccurs | src/storage/storage.go:333-335 | the substring test holds exactly when the term occurs at some position of the text |
| Text.ContainsFoldIffOccurs | src/storage/storage.go:333-335 | the case-insensitive test holds exactly when the lower-cased term occurs at some position of the lower-cased text |
| Text.ContainsFoldIgnoresTermCase | src/storage/storage.go:333-335 | the case-insensitive test gives the same answer for a term and its lowercase form |
| StoreLaws.NewStoreFindsNothing | src/storage/storage.go:46-56 | a fresh store finds no user, password, listing or order, and both queries come back empty |
| StoreLaws.GetAfterCreateUser | src/storage/storage.go:59-97 | a created user is found under the id it was given, and by its email |
| StoreLaws.SoleHolderIsFound | src/storage/storage.go:87-97 | when exactly one live user has an email, the lookup by that email returns that user |
| StoreLaws.GetAfterCreateListing | src/storage/storage.go:161-183 | a created listing is found under the id it was given |
| StoreLaws.GetAfterCreateOrder | src/storage/storage.go:240-263 | a created order is found under the id it was given, pending |
| StoreLaws.GetAfterUpdateListing | src/storage/storage.go:211-225 | after an update the id reads back the stored record and every other id reads back what it did before |
| StoreLaws.GetAfterUpdateOrder | src/storage/storage.go:304-318 | after an update the id reads back the stored record and every other id reads back what it did before |
| StoreLaws.DeleteTwice | src/storage/storage.go:112-123 | a deleted user, listing or order is gone, and a second delete fails with NotFound and changes nothing |
| StoreLaws.DeleteListingKeepsOrders | src/storage/storage.go:227-237 | deleting a listing leaves every order untouched: there is no cascade |
| StoreLaws.MatchIgnoresTermCase | src/storage/storage.go:191-196 | whether a listing matches does not depend on the case of the search term |
| StoreLaws.InSearchResultIffMatches | src/storage/storage.go:185-209 | a listing is in the search result exactly when it is live and passes the filters |
| StoreLaws.SearchIgnoresTermCase | src/storage/storage.go:333-335 | a search term and its lowercase form select the same listings |
| StoreLaws.CreateUserKeepsEmailsUnique | src/storage/storage.go:63-68 | if no two live users share an email before a create, none do after it |
| StoreLaws.UpdateUserCanDuplicateEmail | src/storage/storage.go:99-110 | an update does not check the new email against the other users, so two live users can end up sharing one |
| Trace.StepKeepsInvariant | src/storage/storage.go:70-72 | every write keeps the invariant, moves no counter back, and makes no retired id live again |
| Trace.RunKeepsInvariant | src/storage/storage.go:35-56 | any sequence of writes from a valid store keeps the invariant, moves no counter back, and never reuses an id |
| Trace.ReachableIsValid | src/storage/storage.go:46-56 | every store reachable from a fresh one satisfies the invariant |
| Trace.LaterCreationsGetFreshIds | src/storage/storage.go:70-72 | a user created after any run gets an id that is not live and is at least the counter the run started from |
| Paging32.Wrap32 | src/storage/storage.go:291-292 | 32-bit two's-complement wrap-around: in range, congruent to the input, and the identity on values already in range |
| Paging32.Page32 | src/storage/storage.go:291-301 | the slice of any list the original serves for a page: `None` exactly when the 32-bit start is below the wrapped length and the slice bounds are out of range; empty when the start is at or past the wrapped length; otherwise the elements from the 32-bit start up to the 32-bit end, cut down to the length |
| Paging32.GetOrdersAsWritten | src/storage/storage.go:281-301 | the order page computed in 32-bit arithmetic fails exactly when the start is below the wrapped count and the slice bounds are out of range; otherwise it reports the wrapped count and serves nothing when the 32-bit start is at or past that count, else the matches from the 32-bit start up to the 32-bit end, cut down to the count |
| Paging32.NegativeStartFails | src/storage/storage.go:291-301 | page 2147483647 with limit 2 wraps the start to -4 and the handler fails, where the corrected query serves an empty page |
| Paging32.WrappedStartServesFirstPage | src/storage/storage.go:291-301 | page 65537 with limit 65536 wraps the start to 0 and serves the first matches, where the corrected query serves an empty page |
| Paging32.AgreesWithoutOverflow | src/storage/storage.go:291-301 | wherever nothing wraps around, the 32-bit computation serves exactly the corrected page |
| Rpc.FromStoreError | src/services/listing_service.go:74-81 | a not-found store failure becomes NotFound with the handler's message; any other failure becomes Internal |
| UserService.CreateUser | src/services/user_service.go:25-53 | a missing field is InvalidArgument with nothing changed; a taken email is AlreadyExists with nothing changed; otherwise the user gets the next id and the hash of its password is stored under that id; consistency is kept |
| UserService.GetUser | src/services/user_service.go:55-64 | the live record, or NotFound "User not found" |
| UserService.UpdateUser | src/services/user_service.go:66-104 | an absent id is NotFound; otherwise a non-empty username or email overrides and an empty one keeps the stored value, and a password replaces the stored hash only when given |
| UserService.ReplaceUser | src/services/user_service.go:106-141 | existence is checked before the fields, so an absent id is NotFound even with empty fields; then username and email are both required; the password hash changes only when a password is given, and only for that user: every other user's hash is kept |
| UserService.DeleteUser | src/services/user_service.go:143-152 | an absent id is NotFound; otherwise the user and its hash are gone and everything else is kept |
| UserService.EmptyUpdateKeepsUser | src/services/user_service.go:77-101 | an update with every field empty changes nothing and returns the stored user |
| UserService.ReplacedUserReadsBack | src/services/user_service.go:121-130 | after a replacement the user reads back exactly as the request gave it, under its id |
| ListingService.FirstOversized | src/services/listing_service.go:43-46 | finds the first image over 5 MiB, with every image before it within the limit, and finds none exactly when all are within it |
| Text.NatToString | src/services/listing_service.go:45 | the decimal rendering of the image position: digits only, no leading zero, and reading it back gives the number |
| ListingService.CreateListing | src/services/listing_service.go:35-71 | checks run in order (required fields, each image's size naming its 1-based position, at most 5 images), each failure leaving the store unchanged; success copies every field and the images, attributes the listing to user 1 and stamps both times |
| ListingService.GetListing | src/services/listing_service.go:73-82 | the live record, or NotFound "Listing not found" |
| ListingService.UpdateListing | src/services/listing_service.go:84-135 | an absent id is NotFound; otherwise non-empty text fields and a positive price override, the rest are kept, and the images, owner, id and creation time never change |
| ListingService.DeleteListing | src/services/listing_service.go:137-147 | an absent id is NotFound; otherwise only that listing is gone and the success message is returned |
| ListingService.GetListings | src/services/listing_service.go:26-33 | always succeeds, and returns exactly the live listings that pass the filters |
| ListingService.MergeLaws | src/services/listing_service.go:95-125 | an update that gives nothing keeps every field, and applying an update twice is the same as once |
| ListingService.CreatedListingIsFound | src/services/listing_service.go:54-70 | a created listing reads back under its id exactly as the creation returned it |
| ListingService.UpdateListingIdempotent | src/services/listing_service.go:94-133 | repeating an update at the same time changes nothing more |
| OrderService.PageCount | src/services/order_service.go:32-36 | the page count is the ceiling of total over limit: the pages hold every order, and none of them is empty |
| OrderService.GetOrders | src/services/order_service.go:25-47 | reports the number of matching orders and their page count at the requested limit, with limit 10 when it is not positive |
| OrderService.PageHoldsOrdersIffWithinPageCount | src/services/order_service.go:32-41 | a page numbered from 1 holds orders exactly when its number is at most the reported page count |
| OrderService.GetOrdersMatch | src/services/order_service.go:25-29 | every order served matches the query, in ascending id order |
| OrderService.CreateOrder | src/services/order_service.go:49-88 | checks run in order (listing id, quantity and address present; street, city and country present; listing exists), each failure leaving the store unchanged; success stores a pending order for user 1 priced at the listing's price times the quantity |
| OrderService.GetOrder | src/services/order_service.go:90-99 | the live record, or NotFound "Order not found" |
| OrderService.UpdateOrder | src/services/order_service.go:101-147 | an absent id is NotFound; otherwise a positive user id, listing id, quantity or total overrides and the rest, the status included, is kept |
| OrderService.DeleteOrder | src/services/order_service.go:149-159 | an absent id is NotFound; otherwise only that order is gone and the success message is returned |
| OrderService.CancelOrder | src/services/order_service.go:161-196 | an absent id is NotFound; otherwise the order becomes cancelled with the reason and cancellation time, and every other field is kept |
| OrderService.UpdateOrderStatus | src/services/order_service.go:198-242 | a status outside pending, confirmed, shipped and delivered is InvalidArgument before any lookup; success changes only the status and update time, and never yields cancelled |
| OrderService.CreatedOrderIsFound | src/services/order_service.go:70-87 | a created order reads back under its id and adds exactly its own id to user 1's pending orders |
| OrderService.UpdateOrderStatusIdempotent | src/services/order_service.go:220-241 | setting the same status twice at the same time is the same as once |
| OrderService.CancelledOrderCanBeReopened | src/services/order_service.go:198-242 | the current status does not restrict a status change: a cancelled order can be set back to pending |
| OrderService.LifecycleKeepsTotal | src/services/order_service.go:112-137 | status changes and cancellations keep the total, owner and creation time, and an update that gives nothing only restamps the update time |
| SessionService.Login | src/services/session_service.go:29-63 | empty fields are InvalidArgument; every other failure is the same Unauthenticated "Invalid credentials"; an unknown email fails; a token names the email, expires 24 hours after `now`, and belongs to a user whose stored hash is the password's |
| SessionService.LoginSound | src/services/session_service.go:36-47 | on every valid store, shared emails included, a successful login names a live user who holds the email and whose stored hash is the password's |
| SessionService.LoginIffCredentials | src/services/session_service.go:36-47 | with unique emails, a login succeeds exactly when a live user has the email and the stored hash of the password, and the token names that user |
| SessionService.RegisteredUserCanLogIn | src/services/session_service.go:42-55 | a user who has just registered logs in with the same email and password and gets a token for its new id |
| SessionService.DeletedUserCannotLogIn | src/services/session_service.go:36-39 | with unique emails, a deleted user's email no longer logs in, whatever the password |
| SessionService.Logout | src/services/session_service.go:65-69 | logging out always succeeds and leaves the store as it was |
| SessionService.LogoutKeepsLogins | src/services/session_service.go:65-69 | after a logout every login gets the answer it got before: no token is revoked |
| Scenario.OrderServiceTest | src/services/services_test.go:163-242 | from a fresh store: the listing at 100 becomes listing 1; two of it make order 1 at 200; the order reads back under its id, is shipped, then cancelled; and the first page of all orders is not empty |
| Scenario.Registration | src/services/services_test.go:20-68 | on a fresh store the first registration becomes user 1, and a second registration with the same email is AlreadyExists and uses up no id; the test's lookup and update steps in between are not part of this lemma |
| Scenario.Walkthrough | src/services/services_test.go:15-242 | the user test's registrations followed, on the same store, by the order test's steps with three items instead of two: 300, pending; shipping keeps the total and creation time; and then delisting the item, which leaves the order untouched |

## Left out

- Concurrency: the store's read/write lock is not modelled. Every store method holds it for its whole body, so each store method is one atomic step.
- Handler atomicity: each handler is modelled as one step, but the original locks once per store call. Examples are `CreateUser` then `SetUserPassword` in user registration, and the lookup then the write in every update, replace, cancel and status handler. The gRPC server runs handlers concurrently, so another handler can run in between. A `DeleteOrder` between the lookup and the write makes the "Failed to update order" branches reachable. A `DeleteUser` between `ReplaceUser`'s store update and its `SetUserPassword` leaves a hash stored for a deleted id, which breaks `Rpc.Consistent` for good. The model's claims about these branches and about `Rpc.Consistent` hold only for handlers that run without interleaving.
- gRPC transport, server wiring and the clients are not modelled. Status codes are the `Rpc.Code` datatype, and the handlers' messages are kept word for word.
- Password hashing: SHA-256 with hex output is the `hash` parameter, so no property depends on what the hash is.
- Token signing: HS256 signing with the fixed secret is not modelled, so a token is just its claims. For the same reason the handler's "Failed to generate token" branch is not modelled.
- Image encoding: base64 encoding of the images is not modelled. An image is kept as its size in bytes, which is all the checks read.
- Clocks: every `time.Now()` is the `now` parameter. The `UpdateListing`, `UpdateOrder`, `CancelOrder` and `UpdateOrderStatus` handlers read the clock more than once, in the handler and again in the store; the model uses a single `now` for all of those reads.
- Prices: `float64` prices are `real`, so rounding, NaN and infinities are not modelled. The page count's `math.Ceil` over floats is integer ceiling division, which agrees for every count below 2^53.
- Lowercasing: the search's Unicode lowercasing is ASCII lowercasing (`Text.LowerChar`).
- Map iteration order: Go's order is unspecified. The model fixes ascending id order for both queries and for the email lookup.
- Storage.GetUserByEmail: when several live users share an email, the original returns whichever the map yields first. The model returns the one with the lowest id.
- SessionService.LoginIffCredentials: stated only for stores where emails are unique, because with shared emails the original's answer depends on map order. The "only if" half holds on every valid store and is `SessionService.LoginSound`.
- 32-bit integers: ids, counters, quantities and totals are unbounded. Only the order query's paging is modelled in 32 bits (`Paging32`). The remaining wrap-arounds need more than 2^31 records or a quantity times price beyond `float64`'s exact range.
- Pointer aliasing: the original's create methods fill in the caller's record in place, and its lookups hand out the stored record itself. The model uses values, so later mutation through a shared pointer is not modelled.
- Store type: the handlers' type switch on the in-memory store is assumed to succeed, so password hashes are always stored and always checked.
- Missing request bodies: a nil update body in `UpdateUser`, `ReplaceUser`, `UpdateListing` and `UpdateOrder` makes the original fail on a nil dereference. The model assumes the body is present. A missing shipping address is modelled: it is `None`.
- Unreachable failures: listing and order creation never fail in the store, and user creation fails only with `UserExists`, which the handler turns into AlreadyExists. So the handlers' "Failed to create …" Internal branches are modelled but cannot be taken. The store also never fails an update right after a successful lookup. So in a handler that runs without interleaving, the "Failed to update …" and "Failed to cancel …" branches cannot be taken either (see "Handler atomicity").
- Email uniqueness: no two live users share an email only as far as creation is concerned. Updates and replacements do not recheck the new email, and the model follows the code (`StoreLaws.UpdateUserCanDuplicateEmail`).

## Findings

| source | as written | input that shows it | evidently intended | confidence | as-written member | corrected member |
|---|---|---|---|---|---|---|
| src/storage/storage.go:291-301 | `start := (page - 1) * limit` and `end := start + limit` are computed in `int32` and wrap around | page 2147483647, limit 2: start wraps to -4, end to -2, and `filtered[-4:-2]` fails at run time; page 65537, limit 65536: start wraps to 0, so the first page is served for a page far past the end | a page that starts at or past the number of matches is empty | not executed | Paging32.GetOrdersAsWritten | Storage.GetOrders |

`Paging32.NegativeStartFails` and `Paging32.WrappedStartServesFirstPage` exhibit the two inputs against both members. `Paging32.AgreesWithoutOverflow` shows the two coincide wherever nothing wraps around. The rest of the model uses `Storage.GetOrders`, computed without wrap-around.
