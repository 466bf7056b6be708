/** The three kinds of record the marketplace stores. */
module Records {
  import opened Results

  /** A point in time, in seconds; clocks are passed in explicitly. */
  type Time = int

  datatype User = User(id: int, username: string, email: string)

  /**
   * An uploaded image. Only its size in bytes matters to the model: the
   * base64 text the listing keeps is not modelled.
   */
  datatype Image = Image(size: nat)

  datatype Listing = Listing(
    id: int,
    title: string,
    description: string,
    price: real,
    category: string,
    condition: string,
    location: string,
    images: seq<Image>,
    userId: int,
    createdAt: Option<Time>,
    updatedAt: Option<Time>)

  datatype Address = Address(street: string, city: string, state: string, zip: string, country: string)

  datatype Order = Order(
    id: int,
    userId: int,
    listingId: int,
    quantity: int,
    totalPrice: real,
    status: string,
    shippingAddress: Option<Address>,
    buyerNotes: string,
    createdAt: Option<Time>,
    updatedAt: Option<Time>,
    cancelledAt: Option<Time>,
    cancelReason: string)

  /** The status every new order starts in. */
  const Pending := "pending"
}
