/** The booking entity, its creation request
    (server/src/main/java/ru/practicum/shareit/booking/model/dto/BookingCreateDto.java)
    and BookingMapper
    (server/src/main/java/ru/practicum/shareit/booking/mapper/BookingMapper.java).
    Timestamps are integers on one clock. */
module Bookings {
  import opened Outcomes
  import opened Users
  import opened Items

  datatype BookingStatus = Waiting | Approved | Rejected

  /** A booking. `ownerId` is the owner of the booked item, recorded when the
      booking is made; no operation changes an item's owner. A status of None
      is the null status of a booking not yet saved. */
  datatype Booking = Booking(id: int, start: int, end: int, itemId: int, ownerId: int,
                             bookerId: int, status: Option<BookingStatus>)

  /** A creation request; start and end are non-null after validation. */
  datatype BookingCreateDto = BookingCreateDto(itemId: int, start: int, end: int)

  /** BookingCreateDto.isStartBeforeEnd. */
  predicate IsStartBeforeEnd(d: BookingCreateDto): (r: bool)
    ensures r ==> d.start != d.end
    ensures r <==> d.end - d.start >= 1
  {
    d.start < d.end
  }

  /** The bean-validation constraints of a creation request at time `now`:
      start present or future, end strictly future, start before end. */
  predicate IsValidRequest(d: BookingCreateDto, now: int) {
    now <= d.start && now < d.end && IsStartBeforeEnd(d)
  }

  /** The item view inside a booking view: id, name and the owner's name. */
  datatype ItemBookingDto = ItemBookingDto(id: int, name: string, ownerName: string)

  datatype BookingDto = BookingDto(id: int, start: int, end: int, item: ItemBookingDto,
                                   booker: UserDto, status: Option<BookingStatus>)

  /** BookingMapper.mapToBooking: the requested interval for the given item
      and booker, with id 0 and no status. */
  function MapToBooking(d: BookingCreateDto, item: Item, booker: User): (b: Booking)
    ensures b.id == 0 && b.status.None?
    ensures b.start == d.start && b.end == d.end
    ensures b.itemId == item.id && b.ownerId == item.ownerId && b.bookerId == booker.id
  {
    Booking(0, d.start, d.end, item.id, item.ownerId, booker.id, None)
  }

  /** BookingMapper.mapToBookingDto, given the booking's item, the item's
      owner and the booker as they are now. */
  function MapToBookingDto(b: Booking, item: Item, owner: User, booker: User): (d: BookingDto)
    ensures d.id == b.id && d.start == b.start && d.end == b.end && d.status == b.status
    ensures d.item == ItemBookingDto(item.id, item.name, owner.name)
    ensures d.booker == MapToUserDto(booker)
  {
    BookingDto(b.id, b.start, b.end, ItemBookingDto(item.id, item.name, owner.name),
               MapToUserDto(booker), b.status)
  }

  /** A zero-length interval is not "start before end". */
  lemma ZeroLengthNotStartBeforeEnd(itemId: int, t: int)
    ensures !IsStartBeforeEnd(BookingCreateDto(itemId, t, t))
  {
  }
}
