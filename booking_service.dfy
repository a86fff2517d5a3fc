/** BookingServiceImpl
    (server/src/main/java/ru/practicum/shareit/booking/service/BookingServiceImpl.java):
    creating a booking, the owner's decision, reading one booking and the two
    listings by state. The current moment is a parameter `now`. */
module BookingService {
  import opened Outcomes
  import opened Users
  import opened Items
  import opened Bookings
  import opened BookingQueries
  import opened Repositories

  /** The `state` filter of the listings. */
  datatype State = All | Current | Past | Future | Waiting | Rejected

  /** What each state means at `now`, for the booker's listing (forBooker)
      or the owner's. FUTURE differs: a booking not yet started for the
      booker, one not yet ended for the owner. */
  predicate InState(b: Booking, state: State, now: int, forBooker: bool) {
    match state
    case All => true
    case Past => b.end <= now
    case Future => if forBooker then b.start >= now else b.end >= now
    case Current => b.start <= now <= b.end
    case Waiting => b.status == Some(BookingStatus.Waiting)
    case Rejected => b.status == Some(BookingStatus.Rejected)
  }

  /** The repository query a booker's listing runs for each state: it
      selects exactly that booker's bookings in that state. */
  function BookerQuery(bookerId: int, state: State, now: int): (q: Query)
    ensures IsBookerQuery(q) && q.bookerId == bookerId
    ensures forall b :: Selects(q, b) <==> b.bookerId == bookerId && InState(b, state, now, true)
  {
    match state
    case All => FindAllByBookerId(bookerId)
    case Past => FindPastByBookerId(bookerId, now)
    case Future => FindFutureByBookerId(bookerId, now)
    case Current => FindCurrentByBookerId(bookerId, now)
    case Waiting => FindWaitingOrRejectedByBookerId(bookerId, BookingStatus.Waiting)
    case Rejected => FindWaitingOrRejectedByBookerId(bookerId, BookingStatus.Rejected)
  }

  /** The repository query an owner's listing runs for each state: it
      selects exactly the bookings of that owner's items in that state. */
  function OwnerQuery(ownerId: int, state: State, now: int): (q: Query)
    ensures !IsBookerQuery(q) && q.ownerId == ownerId
    ensures forall b :: Selects(q, b) <==> b.ownerId == ownerId && InState(b, state, now, false)
  {
    match state
    case All => FindAllByOwnerId(ownerId)
    case Past => FindPastByOwnerId(ownerId, now)
    case Future => FindFutureByOwnerId(ownerId, now)
    case Current => FindCurrentByOwnerId(ownerId, now)
    case Waiting => FindWaitingOrRejectedByOwnerId(ownerId, BookingStatus.Waiting)
    case Rejected => FindWaitingOrRejectedByOwnerId(ownerId, BookingStatus.Rejected)
  }

  /** The booking's item and users are stored, and its recorded owner is
      its item's owner. */
  predicate Resolves(b: Booking, items: map<int, Item>, users: map<int, User>) {
    b.itemId in items && items[b.itemId].ownerId == b.ownerId &&
    b.ownerId in users && b.bookerId in users
  }

  /** Items and users stored under their own ids; bookings stored under ids
      1 .. n - 1, each under its own id, each resolving against the stored
      items and users. */
  ghost predicate Consistent(bookings: map<int, Booking>, n: int, items: map<int, Item>,
                             users: map<int, User>) {
    (forall k :: k in items ==> items[k].id == k) &&
    (forall k :: k in users ==> users[k].id == k) &&
    (forall k :: k in bookings <==> 1 <= k < n) &&
    (forall k :: k in bookings ==> bookings[k].id == k && Resolves(bookings[k], items, users))
  }

  /** BookingMapper.mapToBookingDto applied to a stored booking: the item
      and users are loaded as they are now. */
  function View(b: Booking, items: map<int, Item>, users: map<int, User>): BookingDto
    requires Resolves(b, items, users)
  {
    MapToBookingDto(b, items[b.itemId], users[b.ownerId], users[b.bookerId])
  }

  /** The views of `s`, in order. */
  function Views(s: seq<Booking>, items: map<int, Item>, users: map<int, User>): (r: seq<BookingDto>)
    requires forall b :: b in s ==> Resolves(b, items, users)
    ensures |r| == |s|
    ensures forall i :: 0 <= i < |s| ==> r[i] == View(s[i], items, users)
  {
    if s == [] then [] else [View(s[0], items, users)] + Views(s[1..], items, users)
  }

  /** A query run over the stored bookings, as views: sorted by end
      descending, holding exactly the selected bookings, each once. */
  function Listing(q: Query, bookings: map<int, Booking>, n: int, items: map<int, Item>,
                   users: map<int, User>): (r: seq<BookingDto>)
    requires Consistent(bookings, n, items, users)
    ensures forall i, j :: 0 <= i < j < |r| ==> r[i].end >= r[j].end
    ensures forall i, j :: 0 <= i < j < |r| ==> r[i].id != r[j].id
    ensures forall i :: 0 <= i < |r| ==>
              r[i].id in bookings && Selects(q, bookings[r[i].id]) &&
              r[i] == View(bookings[r[i].id], items, users)
    ensures forall k :: k in bookings && Selects(q, bookings[k]) ==>
              exists i :: 0 <= i < |r| && r[i].id == k
  {
    var all := Ordered(bookings, n);
    var s := Run(q, all);
    var r := Views(s, items, users);
    ListingFacts(q, bookings, n, items, users, all, s, r);
    r
  }

  lemma ListingFacts(q: Query, bookings: map<int, Booking>, n: int, items: map<int, Item>,
                     users: map<int, User>, all: seq<Booking>, s: seq<Booking>, r: seq<BookingDto>)
    requires Consistent(bookings, n, items, users)
    requires all == Ordered(bookings, n) && s == Run(q, all)
    requires forall b :: b in s ==> Resolves(b, items, users)
    requires r == Views(s, items, users)
    ensures forall i, j :: 0 <= i < j < |r| ==> r[i].end >= r[j].end
    ensures forall i, j :: 0 <= i < j < |r| ==> r[i].id != r[j].id
    ensures forall i :: 0 <= i < |r| ==>
              r[i].id in bookings && Selects(q, bookings[r[i].id]) &&
              r[i] == View(bookings[r[i].id], items, users)
    ensures forall k :: k in bookings && Selects(q, bookings[k]) ==>
              exists i :: 0 <= i < |r| && r[i].id == k
  {
    forall i | 0 <= i < |r|
      ensures r[i].id in bookings && Selects(q, bookings[r[i].id]) &&
              r[i] == View(bookings[r[i].id], items, users)
    {
      assert s[i] in s;
    }
    forall i, j | 0 <= i < j < |r| ensures r[i].id != r[j].id {
      DistinctAt(s, i, j);
      assert s[i] in s && s[j] in s;
    }
    forall k | k in bookings && Selects(q, bookings[k])
      ensures exists i :: 0 <= i < |r| && r[i].id == k
    {
      var b := bookings[k];
      assert b in all;
      var i :| 0 <= i < |s| && s[i] == b;
      assert r[i].id == k;
    }
  }

  /** A booker's query, whatever the state, selects only that booker's
      bookings; an owner's, only bookings of that owner's items. */
  lemma QueriesSelectByRole(userId: int, state: State, now: int, b: Booking)
    ensures Selects(BookerQuery(userId, state, now), b) ==> b.bookerId == userId
    ensures Selects(OwnerQuery(userId, state, now), b) ==> b.ownerId == userId
  {
    match state
    case All =>
    case Past =>
    case Future =>
    case Current =>
    case Waiting =>
    case Rejected =>
  }

  /** Every view in a booker's listing is of a booking by that booker. */
  lemma BookerListingIsOwn(bookerId: int, state: State, now: int, bookings: map<int, Booking>, n: int,
                           items: map<int, Item>, users: map<int, User>)
    requires Consistent(bookings, n, items, users)
    ensures var r := Listing(BookerQuery(bookerId, state, now), bookings, n, items, users);
      forall i :: 0 <= i < |r| ==> r[i].booker.id == bookerId
  {
    var r := Listing(BookerQuery(bookerId, state, now), bookings, n, items, users);
    forall i | 0 <= i < |r| ensures r[i].booker.id == bookerId {
      QueriesSelectByRole(bookerId, state, now, bookings[r[i].id]);
    }
  }

  /** Every view in an owner's listing is of a booking of an item the owner
      owns, and names the owner. */
  lemma OwnerListingIsOwn(ownerId: int, state: State, now: int, bookings: map<int, Booking>, n: int,
                          items: map<int, Item>, users: map<int, User>)
    requires Consistent(bookings, n, items, users)
    ensures var r := Listing(OwnerQuery(ownerId, state, now), bookings, n, items, users);
      forall i :: 0 <= i < |r| ==>
        r[i].item.id in items && items[r[i].item.id].ownerId == ownerId &&
        ownerId in users && r[i].item.ownerName == users[ownerId].name
  {
    var r := Listing(OwnerQuery(ownerId, state, now), bookings, n, items, users);
    forall i | 0 <= i < |r|
      ensures r[i].item.id in items && items[r[i].item.id].ownerId == ownerId &&
              ownerId in users && r[i].item.ownerName == users[ownerId].name
    {
      QueriesSelectByRole(ownerId, state, now, bookings[r[i].id]);
    }
  }

  /** A listing by a status query shows only bookings with that status. */
  lemma ListingStatus(q: Query, st: BookingStatus, bookings: map<int, Booking>, n: int,
                      items: map<int, Item>, users: map<int, User>)
    requires Consistent(bookings, n, items, users)
    requires q.FindWaitingOrRejectedByBookerId? || q.FindWaitingOrRejectedByOwnerId?
    requires q.status == st
    ensures var r := Listing(q, bookings, n, items, users);
      forall i :: 0 <= i < |r| ==> r[i].status == Some(st)
  {
  }

  class BookingServiceImpl {
    const bookingRepository: BookingRepository
    const itemRepository: ItemRepository
    const userRepository: UserRepository

    constructor (bookings: BookingRepository, items: ItemRepository, users: UserRepository)
      ensures bookingRepository == bookings && itemRepository == items && userRepository == users
    {
      bookingRepository := bookings;
      itemRepository := items;
      userRepository := users;
    }

    /** The repositories are valid and every reference between their rows
        resolves, as the database's foreign keys guarantee. */
    ghost predicate Valid()
      reads this, bookingRepository, itemRepository, userRepository
    {
      bookingRepository.Valid() && itemRepository.Valid() && userRepository.Valid() &&
      (forall k :: k in itemRepository.items ==> itemRepository.items[k].ownerId in userRepository.users) &&
      Consistent(bookingRepository.bookings, bookingRepository.nextId, itemRepository.items, userRepository.users)
    }

    /** What createBooking decides: the first failed check in the order
        booker, item, availability, interval; otherwise the new booking,
        WAITING, under the next id. */
    function CreateOutcome(d: BookingCreateDto, bookerId: int): (r: Result<Booking>)
      reads this, bookingRepository, itemRepository, userRepository
      requires Valid()
      ensures r == Err(NotFound) <==>
                bookerId !in userRepository.users || d.itemId !in itemRepository.items
      ensures r == Err(NotAvailable) <==>
                bookerId in userRepository.users && d.itemId in itemRepository.items &&
                !itemRepository.items[d.itemId].available
      ensures r == Err(BadRequestParam) <==>
                bookerId in userRepository.users && d.itemId in itemRepository.items &&
                itemRepository.items[d.itemId].available && !IsStartBeforeEnd(d)
      ensures r.Err? ==> r.error in {NotFound, NotAvailable, BadRequestParam}
      ensures r.Ok? ==> r.value == Booking(bookingRepository.nextId, d.start, d.end, d.itemId,
                                           itemRepository.items[d.itemId].ownerId, bookerId,
                                           Some(BookingStatus.Waiting))
    {
      if bookerId !in userRepository.users then Err(NotFound)
      else if d.itemId !in itemRepository.items then Err(NotFound)
      else
        var item := itemRepository.items[d.itemId];
        if !item.available then Err(NotAvailable)
        else if !IsStartBeforeEnd(d) then Err(BadRequestParam)
        else
          var b := MapToBooking(d, item, userRepository.users[bookerId]);
          Ok(b.(id := bookingRepository.nextId, status := Some(BookingStatus.Waiting)))
    }

    /** createBooking: stores the booking CreateOutcome describes and returns
        its view, or stores nothing and reports the failed check. */
    method CreateBooking(d: BookingCreateDto, bookerId: int) returns (r: Result<BookingDto>)
      requires Valid()
      modifies bookingRepository
      ensures Valid()
      ensures old(CreateOutcome(d, bookerId)).Err? ==>
                r == Err(old(CreateOutcome(d, bookerId)).error) && unchanged(bookingRepository)
      ensures old(CreateOutcome(d, bookerId)).Ok? ==>
                var b := old(CreateOutcome(d, bookerId)).value;
                Resolves(b, itemRepository.items, userRepository.users) &&
                r == Ok(View(b, itemRepository.items, userRepository.users)) &&
                bookingRepository.bookings == old(bookingRepository.bookings)[b.id := b] &&
                bookingRepository.nextId == old(bookingRepository.nextId) + 1
    {
      if bookerId !in userRepository.users {
        return Err(NotFound);
      }
      var user := userRepository.users[bookerId];
      if d.itemId !in itemRepository.items {
        return Err(NotFound);
      }
      var item := itemRepository.items[d.itemId];
      if !item.available {
        return Err(NotAvailable);
      }
      if !IsStartBeforeEnd(d) {
        return Err(BadRequestParam);
      }
      var booking := MapToBooking(d, item, user);
      booking := booking.(status := Some(BookingStatus.Waiting));
      booking := bookingRepository.Save(booking);
      return Ok(View(booking, itemRepository.items, userRepository.users));
    }

    /** What itemOwnerBookingSolution decides: NotFound for an unknown
        booking, NotAvailable unless the caller owns the booked item, and
        otherwise the same booking with status APPROVED or REJECTED,
        whatever its current status. */
    function DecisionOutcome(bookingId: int, ownerId: int, approved: bool): (r: Result<Booking>)
      reads this, bookingRepository
      ensures r == Err(NotFound) <==> bookingId !in bookingRepository.bookings
      ensures r == Err(NotAvailable) <==>
                bookingId in bookingRepository.bookings &&
                bookingRepository.bookings[bookingId].ownerId != ownerId
      ensures r.Ok? <==>
                bookingId in bookingRepository.bookings &&
                bookingRepository.bookings[bookingId].ownerId == ownerId
      ensures r.Ok? ==>
                bookingId in bookingRepository.bookings &&
                r.value == bookingRepository.bookings[bookingId].(status :=
                  Some(if approved then BookingStatus.Approved else BookingStatus.Rejected))
    {
      if bookingId !in bookingRepository.bookings then Err(NotFound)
      else
        var b := bookingRepository.bookings[bookingId];
        if b.ownerId != ownerId then Err(NotAvailable)
        else Ok(b.(status := Some(if approved then BookingStatus.Approved else BookingStatus.Rejected)))
    }

    /** itemOwnerBookingSolution: stores the decided booking and returns its
        view, or changes nothing. */
    method ItemOwnerBookingSolution(bookingId: int, ownerId: int, approved: bool)
      returns (r: Result<BookingDto>)
      requires Valid()
      modifies bookingRepository
      ensures Valid()
      ensures old(DecisionOutcome(bookingId, ownerId, approved)).Err? ==>
                r == Err(old(DecisionOutcome(bookingId, ownerId, approved)).error) &&
                unchanged(bookingRepository)
      ensures old(DecisionOutcome(bookingId, ownerId, approved)).Ok? ==>
                var b := old(DecisionOutcome(bookingId, ownerId, approved)).value;
                Resolves(b, itemRepository.items, userRepository.users) &&
                r == Ok(View(b, itemRepository.items, userRepository.users)) &&
                bookingRepository.bookings == old(bookingRepository.bookings)[bookingId := b] &&
                bookingRepository.nextId == old(bookingRepository.nextId)
    {
      if bookingId !in bookingRepository.bookings {
        return Err(NotFound);
      }
      var booking := bookingRepository.bookings[bookingId];
      if booking.ownerId != ownerId {
        return Err(NotAvailable);
      }
      booking := booking.(status := Some(if approved then BookingStatus.Approved else BookingStatus.Rejected));
      booking := bookingRepository.Save(booking);
      return Ok(View(booking, itemRepository.items, userRepository.users));
    }

    /** getBookingById as written: a caller who is neither the booker nor the
        item's owner gets null (None) instead of an error. */
    function GetBookingByIdAsWritten(bookingId: int, userId: int): (r: Result<Option<BookingDto>>)
      reads this, bookingRepository, itemRepository, userRepository
      requires Valid()
      ensures r == Err(NotFound) <==> bookingId !in bookingRepository.bookings
      ensures r == Ok(None) <==>
                bookingId in bookingRepository.bookings &&
                bookingRepository.bookings[bookingId].ownerId != userId &&
                bookingRepository.bookings[bookingId].bookerId != userId
      ensures r.Ok? && r.value.Some? ==>
                r.value.value == View(bookingRepository.bookings[bookingId], itemRepository.items,
                                      userRepository.users)
    {
      if bookingId !in bookingRepository.bookings then Err(NotFound)
      else
        var b := bookingRepository.bookings[bookingId];
        if b.ownerId == userId || b.bookerId == userId
        then Ok(Some(View(b, itemRepository.items, userRepository.users)))
        else Ok(None)
    }

    /** getBookingById as intended: the booking's view for its booker or its
        item's owner, NotFound for anyone else and for an unknown booking. */
    function GetBookingById(bookingId: int, userId: int): (r: Result<BookingDto>)
      reads this, bookingRepository, itemRepository, userRepository
      requires Valid()
      ensures r.Ok? <==>
                bookingId in bookingRepository.bookings &&
                (bookingRepository.bookings[bookingId].ownerId == userId ||
                 bookingRepository.bookings[bookingId].bookerId == userId)
      ensures r.Err? ==> r.error == NotFound
      ensures r.Ok? ==>
                r.value == View(bookingRepository.bookings[bookingId], itemRepository.items,
                                userRepository.users)
    {
      if bookingId !in bookingRepository.bookings then Err(NotFound)
      else
        var b := bookingRepository.bookings[bookingId];
        if b.ownerId == userId || b.bookerId == userId
        then Ok(View(b, itemRepository.items, userRepository.users))
        else Err(NotFound)
    }

    /** For a stranger the code as written answers with no error and no
        booking, where the intended behaviour is NotFound. */
    lemma StrangerGetsNullAsWritten(bookingId: int, userId: int)
      requires Valid()
      requires bookingId in bookingRepository.bookings
      requires bookingRepository.bookings[bookingId].ownerId != userId
      requires bookingRepository.bookings[bookingId].bookerId != userId
      ensures GetBookingByIdAsWritten(bookingId, userId) == Ok(None)
      ensures GetBookingById(bookingId, userId) == Err(NotFound)
    {
    }

    /** The two versions agree for the booker and the item's owner. */
    lemma GetBookingByIdAgreesForParties(bookingId: int, userId: int)
      requires Valid()
      ensures GetBookingById(bookingId, userId).Ok? ==>
                GetBookingByIdAsWritten(bookingId, userId) == Ok(Some(GetBookingById(bookingId, userId).value))
      ensures GetBookingById(bookingId, userId).Err? <==>
                GetBookingByIdAsWritten(bookingId, userId) in {Err(NotFound), Ok(None)}
    {
    }

    /** getAllUserBookings: NotFound for an unknown user, otherwise the
        query for the state, run over the bookings, as views. */
    function GetAllUserBookings(bookerId: int, state: State, now: int): (r: Result<seq<BookingDto>>)
      reads this, bookingRepository, itemRepository, userRepository
      requires Valid()
      ensures r.Err? <==> bookerId !in userRepository.users
      ensures r.Err? ==> r.error == NotFound
      ensures r.Ok? ==> forall i :: 0 <= i < |r.value| ==> r.value[i].booker.id == bookerId
      ensures r.Ok? ==> r.value == Listing(BookerQuery(bookerId, state, now), bookingRepository.bookings,
                                           bookingRepository.nextId, itemRepository.items, userRepository.users)
    {
      if bookerId !in userRepository.users then Err(NotFound)
      else
        BookerListingIsOwn(bookerId, state, now, bookingRepository.bookings, bookingRepository.nextId,
                           itemRepository.items, userRepository.users);
        Ok(Listing(BookerQuery(bookerId, state, now), bookingRepository.bookings,
                      bookingRepository.nextId, itemRepository.items, userRepository.users))
    }

    /** getOwnerItemsBookings: NotFound for an unknown user, otherwise the
        query for the state, run over the bookings, as views. */
    function GetOwnerItemsBookings(ownerId: int, state: State, now: int): (r: Result<seq<BookingDto>>)
      reads this, bookingRepository, itemRepository, userRepository
      requires Valid()
      ensures r.Err? <==> ownerId !in userRepository.users
      ensures r.Err? ==> r.error == NotFound
      ensures r.Ok? ==> forall i :: 0 <= i < |r.value| ==>
                r.value[i].item.id in itemRepository.items &&
                itemRepository.items[r.value[i].item.id].ownerId == ownerId &&
                r.value[i].item.ownerName == userRepository.users[ownerId].name
      ensures r.Ok? ==> r.value == Listing(OwnerQuery(ownerId, state, now), bookingRepository.bookings,
                                           bookingRepository.nextId, itemRepository.items, userRepository.users)
    {
      if ownerId !in userRepository.users then Err(NotFound)
      else
        OwnerListingIsOwn(ownerId, state, now, bookingRepository.bookings, bookingRepository.nextId,
                          itemRepository.items, userRepository.users);
        Ok(Listing(OwnerQuery(ownerId, state, now), bookingRepository.bookings,
                      bookingRepository.nextId, itemRepository.items, userRepository.users))
    }

    /** A request that passes the gateway's validation is never refused for
        its interval. */
    lemma ValidRequestNotRefusedForInterval(d: BookingCreateDto, bookerId: int, now: int)
      requires Valid()
      requires IsValidRequest(d, now)
      ensures CreateOutcome(d, bookerId) != Err(BadRequestParam)
    {
    }

    /** The owner may decide again: a booking already APPROVED or REJECTED is
        set to the new decision, as the code does not check for WAITING. */
    lemma DecisionIgnoresCurrentStatus(bookingId: int, approved: bool)
      requires bookingId in bookingRepository.bookings
      ensures var b := bookingRepository.bookings[bookingId];
        DecisionOutcome(bookingId, b.ownerId, approved).Ok? &&
        DecisionOutcome(bookingId, b.ownerId, approved).value.status ==
          Some(if approved then BookingStatus.Approved else BookingStatus.Rejected)
    {
    }

    /** The booker of a booking cannot decide on it unless they own the item. */
    lemma BookerCannotDecide(bookingId: int, approved: bool)
      requires bookingId in bookingRepository.bookings
      requires bookingRepository.bookings[bookingId].bookerId != bookingRepository.bookings[bookingId].ownerId
      ensures DecisionOutcome(bookingId, bookingRepository.bookings[bookingId].bookerId, approved) == Err(NotAvailable)
    {
    }

    /** The WAITING and REJECTED listings do not depend on the moment. */
    lemma StatusListingsIgnoreNow(userId: int, state: State, now1: int, now2: int)
      requires Valid()
      requires state == State.Waiting || state == State.Rejected
      ensures GetAllUserBookings(userId, state, now1) == GetAllUserBookings(userId, state, now2)
      ensures GetOwnerItemsBookings(userId, state, now1) == GetOwnerItemsBookings(userId, state, now2)
    {
    }

    /** Every booking in a WAITING or REJECTED listing has that status. */
    lemma StatusListingShowsStatus(userId: int, state: State, now: int)
      requires Valid() && userId in userRepository.users
      requires state == State.Waiting || state == State.Rejected
      ensures var st := if state == State.Waiting then BookingStatus.Waiting else BookingStatus.Rejected;
        (forall i :: 0 <= i < |GetAllUserBookings(userId, state, now).value| ==>
           GetAllUserBookings(userId, state, now).value[i].status == Some(st)) &&
        (forall i :: 0 <= i < |GetOwnerItemsBookings(userId, state, now).value| ==>
           GetOwnerItemsBookings(userId, state, now).value[i].status == Some(st))
    {
      var st := if state == State.Waiting then BookingStatus.Waiting else BookingStatus.Rejected;
      var bookings, n := bookingRepository.bookings, bookingRepository.nextId;
      var items, users := itemRepository.items, userRepository.users;
      ListingStatus(FindWaitingOrRejectedByBookerId(userId, st), st, bookings, n, items, users);
      ListingStatus(FindWaitingOrRejectedByOwnerId(userId, st), st, bookings, n, items, users);
    }
  }
}
