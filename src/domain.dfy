/** The persisted entities of the sharing service as values. References to
    users are their ids; a booking carries the item it refers to, as the
    join from a booking row to its item row yields it. Instants are integers. */
module Domain {
  import opened Shared

  /** `BookingStatus`. */
  datatype Status = WAITING | APPROVED | REJECTED | CANCELLED

  /** `Role`: whose bookings a listing is about. */
  datatype Role = BOOKER | OWNER

  /** `Item`: `owner` is the owner's user id and `request` the id of the item
      request it answers. */
  datatype Item = Item(
    id: Option<int>,
    name: Option<string>,
    description: Option<string>,
    available: Option<bool>,
    owner: Option<int>,
    request: Option<int>)

  /** `Booking`: the half-open window [start, end) of one item for one booker. */
  datatype Booking = Booking(
    id: Option<int>,
    start: int,
    end: int,
    item: Option<Item>,
    booker: Option<int>,
    status: Status)

  /** `Comment` left by `author` on `item`. */
  datatype Comment = Comment(id: Option<int>, item: int, author: int, text: string, created: int)

  /** `ItemRequest`: a description of a wanted item by `requestor`. */
  datatype ItemRequest = ItemRequest(id: Option<int>, description: Option<string>, requestor: int, created: int)

  /** The primary keys of the bookings, items and requests tables. */
  function IdOfBooking(b: Booking): Option<int> { b.id }

  function IdOfItem(it: Item): Option<int> { it.id }

  function IdOfRequest(q: ItemRequest): Option<int> { q.id }

  /** `b.item.id`, or null when the booking has no item or the item no id. */
  function ItemIdOf(b: Booking): Option<int> {
    if b.item.Some? then b.item.value.id else None
  }

  /** `b.item.owner.id`, or null along the way. */
  function OwnerOf(b: Booking): Option<int> {
    if b.item.Some? then b.item.value.owner else None
  }
}
