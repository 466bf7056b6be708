/**
 * The listing handlers: validation of new listings (required fields, image
 * size and count limits), the keep-unless-given merge of partial updates,
 * and the mapping of store failures to status codes.
 */
module ListingService {
  import opened Results
  import opened Records
  import opened Text
  import Storage
  import opened Rpc

  /** The largest image accepted, in bytes (5 MiB). */
  const MaxImageSize := 5 * 1024 * 1024

  /** The most images one listing may carry. */
  const MaxImages := 5

  datatype ListingCreate = ListingCreate(
    title: string,
    description: string,
    price: real,
    category: string,
    condition: string,
    location: string,
    images: seq<Image>)

  /** The body of an update request; an empty string or a price that is not positive means "not given". */
  datatype ListingUpdate = ListingUpdate(
    title: string,
    description: string,
    price: real,
    category: string,
    condition: string,
    location: string)

  /** The message naming the first image over the size limit, counting from 1. */
  function ImageTooLargeMessage(position: nat): string {
    "Image " + NatToString(position) + " exceeds 5MB limit"
  }

  /** The index of the first image over the size limit, if any. */
  function FirstOversized(images: seq<Image>): (r: Option<nat>)
    ensures r.None? <==> forall i :: 0 <= i < |images| ==> images[i].size <= MaxImageSize
    ensures r.Some? ==>
      && r.value < |images|
      && images[r.value].size > MaxImageSize
      && forall j :: 0 <= j < r.value ==> images[j].size <= MaxImageSize
  {
    if images == [] then None
    else if images[0].size > MaxImageSize then Some(0)
    else
      match FirstOversized(images[1..])
      case None => None
      case Some(i) => Some(i + 1)
  }

  /** The request fields a new listing cannot do without. */
  predicate HasRequiredFields(req: ListingCreate) {
    req.title != "" && req.description != "" && req.price > 0.0
  }

  /**
   * Creates a listing owned by the context user. Checks run in order:
   * required fields, then each image's size, then the image count.
   */
  function CreateListing(s: Storage.Store, req: ListingCreate, now: Time): (r: Reply<Listing>)
    ensures !HasRequiredFields(req) ==>
      r == Reply(s, Err(RpcError(InvalidArgument, "Title, description, and price are required")))
    ensures HasRequiredFields(req) && FirstOversized(req.images).Some? ==>
      r == Reply(s, Err(RpcError(InvalidArgument, ImageTooLargeMessage(FirstOversized(req.images).value + 1))))
    ensures HasRequiredFields(req) && FirstOversized(req.images).None? && |req.images| > MaxImages ==>
      r == Reply(s, Err(RpcError(InvalidArgument, "Maximum 5 images allowed")))
    ensures r.result.Ok? <==>
      HasRequiredFields(req) && |req.images| <= MaxImages
      && forall i :: 0 <= i < |req.images| ==> req.images[i].size <= MaxImageSize
    ensures r.result.Ok? ==>
      var l := r.result.value;
      && l.id == s.nextListingId
      && l.title == req.title && l.description == req.description && l.price == req.price
      && l.category == req.category && l.condition == req.condition && l.location == req.location
      && l.images == req.images && |l.images| <= MaxImages
      && l.userId == ContextUserId
      && l.createdAt == l.updatedAt == Some(now)
      && r.store == s.(listings := s.listings[l.id := l], nextListingId := s.nextListingId + 1)
    ensures Consistent(s) ==> Consistent(r.store)
  {
    if !HasRequiredFields(req) then
      Reply(s, Err(RpcError(InvalidArgument, "Title, description, and price are required")))
    else
      match FirstOversized(req.images)
      case Some(i) => Reply(s, Err(RpcError(InvalidArgument, ImageTooLargeMessage(i + 1))))
      case None =>
        if |req.images| > MaxImages then
          Reply(s, Err(RpcError(InvalidArgument, "Maximum 5 images allowed")))
        else
          var listing := Listing(0, req.title, req.description, req.price, req.category, req.condition,
                                 req.location, req.images, ContextUserId, None, None);
          var created := Storage.CreateListing(s, listing, now);
          match created.result
          case Err(_) => Reply(created.store, Err(RpcError(Internal, "Failed to create listing")))
          case Ok(stored) => Reply(created.store, Ok(stored))
  }

  function GetListing(s: Storage.Store, id: int): (r: Reply<Listing>)
    ensures r.store == s
    ensures id !in s.listings ==> r.result == Err(RpcError(NotFound, "Listing not found"))
    ensures id in s.listings ==> r.result == Ok(s.listings[id])
  {
    match Storage.GetListing(s, id)
    case Err(e) => Reply(s, Err(FromStoreError(e, "Listing not found", "Failed to get listing")))
    case Ok(l) => Reply(s, Ok(l))
  }

  /** The listing an update request produces from the stored one, before the store stamps it. */
  function Merge(existing: Listing, req: ListingUpdate): (m: Listing)
    ensures m.title == (if req.title != "" then req.title else existing.title)
    ensures m.description == (if req.description != "" then req.description else existing.description)
    ensures m.price == (if req.price > 0.0 then req.price else existing.price)
    ensures m.category == (if req.category != "" then req.category else existing.category)
    ensures m.condition == (if req.condition != "" then req.condition else existing.condition)
    ensures m.location == (if req.location != "" then req.location else existing.location)
    ensures m.id == existing.id && m.images == existing.images && m.userId == existing.userId
    ensures m.createdAt == existing.createdAt
  {
    existing.(
      title := if req.title != "" then req.title else existing.title,
      description := if req.description != "" then req.description else existing.description,
      price := if req.price > 0.0 then req.price else existing.price,
      category := if req.category != "" then req.category else existing.category,
      condition := if req.condition != "" then req.condition else existing.condition,
      location := if req.location != "" then req.location else existing.location)
  }

  /**
   * Partial update: given fields override the stored ones, the rest are
   * kept; the images, the owner, the id and the creation time never change.
   */
  function UpdateListing(s: Storage.Store, id: int, req: ListingUpdate, now: Time): (r: Reply<Listing>)
    ensures id !in s.listings ==> r == Reply(s, Err(RpcError(NotFound, "Listing not found")))
    ensures id in s.listings ==>
      var prev := s.listings[id];
      && r.result.Ok?
      && r.result.value == Merge(prev, req).(id := id, updatedAt := Some(now))
      && r.result.value.images == prev.images
      && r.result.value.userId == prev.userId
      && r.result.value.createdAt == prev.createdAt
      && r.store == s.(listings := s.listings[id := r.result.value])
    ensures Consistent(s) ==> Consistent(r.store)
  {
    match Storage.GetListing(s, id)
    case Err(e) => Reply(s, Err(FromStoreError(e, "Listing not found", "Failed to get listing")))
    case Ok(existing) =>
      var updated := Merge(existing, req).(updatedAt := Some(now));
      var written := Storage.UpdateListing(s, id, updated, now);
      match written.result
      case Err(_) => Reply(written.store, Err(RpcError(Internal, "Failed to update listing")))
      case Ok(stored) => Reply(written.store, Ok(stored))
  }

  /** Removes a listing; orders that refer to it are left as they are. */
  function DeleteListing(s: Storage.Store, id: int): (r: Reply<string>)
    ensures id !in s.listings ==> r == Reply(s, Err(RpcError(NotFound, "Listing not found")))
    ensures id in s.listings ==>
      && r.result == Ok("Listing deleted successfully")
      && Storage.GetListing(r.store, id).Err?
      && (forall k :: k != id ==> Storage.GetListing(r.store, k) == Storage.GetListing(s, k))
      && r.store == s.(listings := r.store.listings)
    ensures Consistent(s) ==> Consistent(r.store)
  {
    var deleted := Storage.DeleteListing(s, id);
    match deleted.result
    case Err(e) => Reply(deleted.store, Err(FromStoreError(e, "Listing not found", "Failed to delete listing")))
    case Ok(_) => Reply(deleted.store, Ok("Listing deleted successfully"))
  }

  /** Search by text and price range; the store's failure path is never taken. */
  function GetListings(s: Storage.Store, search: string, priceMin: real, priceMax: real): (r: Reply<seq<Listing>>)
    ensures r.store == s
    ensures r.result.Ok?
    ensures forall l :: l in r.result.value <==> l in s.listings.Values && Storage.ListingMatches(l, search, priceMin, priceMax)
  {
    Reply(s, Ok(Storage.GetListings(s, search, priceMin, priceMax)))
  }

  /** An update that gives nothing keeps every field, and applying an update twice is the same as once. */
  lemma MergeLaws(existing: Listing, req: ListingUpdate)
    ensures Merge(existing, ListingUpdate("", "", 0.0, "", "", "")) == existing
    ensures Merge(Merge(existing, req), req) == Merge(existing, req)
  {
  }

  /** A created listing is found under its id, exactly as the creation returned it. */
  lemma CreatedListingIsFound(s: Storage.Store, req: ListingCreate, now: Time)
    requires CreateListing(s, req, now).result.Ok?
    ensures var r := CreateListing(s, req, now);
      GetListing(r.store, r.result.value.id).result == r.result
  {
  }

  /** Repeating an update at the same time changes nothing more. */
  lemma UpdateListingIdempotent(s: Storage.Store, id: int, req: ListingUpdate, now: Time)
    ensures var once := UpdateListing(s, id, req, now);
      UpdateListing(once.store, id, req, now) == once
  {
    if id in s.listings {
      MergeLaws(s.listings[id], req);
    }
  }
}
