/** The server's ItemServiceImpl
    (server/src/main/java/ru/practicum/shareit/item/service/ItemServiceImpl.java):
    items stored through the repositories, the owner checks, search and
    comments gated by a finished booking. The current moment is a parameter
    `now`. */
module ItemService {
  import opened Outcomes
  import opened Text
  import opened Users
  import opened Items
  import opened Bookings
  import opened BookingQueries
  import opened Repositories

  /** The server's item view: the fields of the item, its owner's id and
      the item request it answers, if any. */
  datatype ServerItemDto = ServerItemDto(id: int, name: string, description: string, available: bool,
                                         ownerId: int, requestId: Option<int>)

  /** The server's mapToItemDto: every field of the item is kept, the item
      request included. */
  function MapToServerItemDto(it: Item): (d: ServerItemDto)
    ensures d.id == it.id && d.ownerId == it.ownerId && d.requestId == it.requestId
    ensures d.name == it.name && d.description == it.description && d.available == it.available
  {
    ServerItemDto(it.id, it.name, it.description, it.available, it.ownerId, it.requestId)
  }

  /** An item's view together with the comments on it. */
  datatype ItemWithComments = ItemWithComments(item: ServerItemDto, comments: set<Comment>)

  class ItemServiceImpl {
    const itemRepository: ItemRepository
    const userRepository: UserRepository
    const commentRepository: CommentRepository
    const bookingRepository: BookingRepository
    const itemRequestRepository: ItemRequestRepository

    constructor (items: ItemRepository, users: UserRepository, comments: CommentRepository,
                 bookings: BookingRepository, requests: ItemRequestRepository)
      ensures itemRepository == items && userRepository == users && commentRepository == comments
      ensures bookingRepository == bookings && itemRequestRepository == requests
    {
      itemRepository := items;
      userRepository := users;
      commentRepository := comments;
      bookingRepository := bookings;
      itemRequestRepository := requests;
    }

    /** The repositories are valid and every stored item's owner is a
        stored user. */
    ghost predicate Valid()
      reads this, itemRepository, userRepository, commentRepository, bookingRepository
    {
      itemRepository.Valid() && userRepository.Valid() && commentRepository.Valid() &&
      bookingRepository.Valid() &&
      forall k :: k in itemRepository.items ==> itemRepository.items[k].ownerId in userRepository.users
    }

    /** The user booked the item and that booking ended before `now`. */
    ghost predicate HasFinishedBooking(userId: int, itemId: int, now: int)
      reads bookingRepository
    {
      exists k :: k in bookingRepository.bookings &&
        bookingRepository.bookings[k].bookerId == userId &&
        bookingRepository.bookings[k].itemId == itemId &&
        bookingRepository.bookings[k].end < now
    }

    /** createItem: NotFound for an unknown owner or an unknown item request,
        and then nothing is stored (the transaction rolls back); otherwise
        the item from the request, owned by the caller, answering the item
        request if one is given, under the next id. */
    method CreateItem(c: ItemCreateDto, ownerId: int) returns (r: Result<ServerItemDto>)
      requires Valid()
      modifies itemRepository
      ensures Valid()
      ensures ownerId !in userRepository.users ==> r == Err(NotFound) && unchanged(itemRepository)
      ensures ownerId in userRepository.users && c.requestId.Some? &&
              c.requestId.value !in itemRequestRepository.requestIds ==>
                r == Err(NotFound) && unchanged(itemRepository)
      ensures ownerId in userRepository.users &&
              (c.requestId.None? || c.requestId.value in itemRequestRepository.requestIds) ==>
                var it := Item(old(itemRepository.nextId), c.name, c.description, c.available, ownerId,
                               c.requestId);
                r == Ok(MapToServerItemDto(it)) && r.value.requestId == c.requestId &&
                itemRepository.items == old(itemRepository.items)[it.id := it] &&
                itemRepository.nextId == old(itemRepository.nextId) + 1
    {
      if ownerId !in userRepository.users {
        return Err(NotFound);
      }
      if c.requestId.Some? && c.requestId.value !in itemRequestRepository.requestIds {
        return Err(NotFound);
      }
      var item := itemRepository.Save(MapToItem(c, ownerId).(requestId := c.requestId));
      return Ok(MapToServerItemDto(item));
    }

    /** updateItem: NotFound for an unknown user, an unknown item, or an item
        the user does not own, checked in that order; otherwise the item
        with the provided fields applied. */
    method UpdateItem(d: ItemUpdateDto, itemId: int, ownerId: int) returns (r: Result<ServerItemDto>)
      requires Valid()
      modifies itemRepository
      ensures Valid()
      ensures ownerId !in userRepository.users || itemId !in old(itemRepository.items) ||
              old(itemRepository.items)[itemId].ownerId != ownerId ==>
                r == Err(NotFound) && unchanged(itemRepository)
      ensures ownerId in userRepository.users && itemId in old(itemRepository.items) &&
              old(itemRepository.items)[itemId].ownerId == ownerId ==>
                var it := UpdateItemFields(old(itemRepository.items)[itemId], d);
                r == Ok(MapToServerItemDto(it)) &&
                itemRepository.items == old(itemRepository.items)[itemId := it] &&
                itemRepository.nextId == old(itemRepository.nextId)
    {
      if ownerId !in userRepository.users {
        return Err(NotFound);
      }
      if itemId !in itemRepository.items {
        return Err(NotFound);
      }
      var item := itemRepository.items[itemId];
      if item.ownerId != ownerId {
        return Err(NotFound);
      }
      var updated := UpdateItemFields(item, d);
      updated := itemRepository.Save(updated);
      return Ok(MapToServerItemDto(updated));
    }

    /** getItemById: NotFound for an unknown item, otherwise its view and
        exactly the comments on it. */
    function GetItemById(itemId: int): (r: Result<ItemWithComments>)
      reads this, itemRepository, commentRepository
      requires itemRepository.Valid() && commentRepository.Valid()
      ensures r.Err? <==> itemId !in itemRepository.items
      ensures r.Err? ==> r.error == NotFound
      ensures r.Ok? ==> r.value.item.id == itemId &&
                        r.value.item == MapToServerItemDto(itemRepository.items[itemId])
      ensures r.Ok? ==> forall c :: c in r.value.comments <==>
                          c.itemId == itemId && c.id in commentRepository.comments &&
                          commentRepository.comments[c.id] == c
    {
      if itemId !in itemRepository.items then Err(NotFound)
      else
        var comments := set k | k in commentRepository.comments && commentRepository.comments[k].itemId == itemId
                              :: commentRepository.comments[k];
        Ok(ItemWithComments(MapToServerItemDto(itemRepository.items[itemId]), comments))
    }

    /** getUserItems: NotFound for an unknown user, otherwise the views of
        exactly the items the user owns. */
    function GetUserItems(ownerId: int): (r: Result<set<ServerItemDto>>)
      reads this, itemRepository, userRepository
      requires itemRepository.Valid()
      ensures r.Err? <==> ownerId !in userRepository.users
      ensures r.Err? ==> r.error == NotFound
      ensures r.Ok? ==> forall d :: d in r.value <==>
                          d.id in itemRepository.items && d.ownerId == ownerId &&
                          d == MapToServerItemDto(itemRepository.items[d.id])
    {
      if ownerId !in userRepository.users then Err(NotFound)
      else
        Ok(set k | k in itemRepository.items && itemRepository.items[k].ownerId == ownerId
                 :: MapToServerItemDto(itemRepository.items[k]))
    }

    /** getSearchItems: nothing for a blank text, otherwise the views of the
        available items whose name or description contains the text,
        ignoring case. */
    function GetSearchItems(text: string): (r: set<ServerItemDto>)
      reads this, itemRepository
      requires itemRepository.Valid()
      ensures IsBlank(text) ==> r == {}
      ensures !IsBlank(text) ==> forall d :: d in r <==>
                d.id in itemRepository.items && Matches(itemRepository.items[d.id], text) &&
                d == MapToServerItemDto(itemRepository.items[d.id])
      ensures forall d :: d in r ==> d.available
    {
      if IsBlank(text) then {}
      else
        set k | k in itemRepository.items && Matches(itemRepository.items[k], text)
              :: MapToServerItemDto(itemRepository.items[k])
    }

    /** deleteItemById: NotFound for an unknown item, an unknown user, or an
        item the user does not own, checked in that order; otherwise the
        item is removed. */
    method DeleteItemById(itemId: int, ownerId: int) returns (r: Result<()>)
      requires Valid()
      modifies itemRepository
      ensures Valid()
      ensures itemId !in old(itemRepository.items) || ownerId !in userRepository.users ||
              old(itemRepository.items)[itemId].ownerId != ownerId ==>
                r == Err(NotFound) && unchanged(itemRepository)
      ensures itemId in old(itemRepository.items) && ownerId in userRepository.users &&
              old(itemRepository.items)[itemId].ownerId == ownerId ==>
                r == Ok(()) && itemRepository.items == old(itemRepository.items) - {itemId} &&
                itemRepository.nextId == old(itemRepository.nextId)
    {
      if itemId !in itemRepository.items {
        return Err(NotFound);
      }
      var item := itemRepository.items[itemId];
      if ownerId !in userRepository.users {
        return Err(NotFound);
      }
      if item.ownerId != ownerId {
        return Err(NotFound);
      }
      itemRepository.DeleteById(itemId);
      return Ok(());
    }

    /** createComment: NotFound for an unknown item or user, checked in that
        order; BadRequestParam unless the user has a booking of the item that
        ended before now; otherwise the comment, stamped with now, stored
        under the next id. */
    method CreateComment(c: CommentCreateDto, itemId: int, userId: int, now: int) returns (r: Result<Comment>)
      requires Valid()
      modifies commentRepository
      ensures Valid()
      ensures itemId !in itemRepository.items || userId !in userRepository.users ==>
                r == Err(NotFound) && unchanged(commentRepository)
      ensures itemId in itemRepository.items && userId in userRepository.users &&
              !HasFinishedBooking(userId, itemId, now) ==>
                r == Err(BadRequestParam) && unchanged(commentRepository)
      ensures itemId in itemRepository.items && userId in userRepository.users &&
              HasFinishedBooking(userId, itemId, now) ==>
                var saved := Comment(old(commentRepository.nextId), c.text, userId, itemId, now);
                r == Ok(saved) &&
                commentRepository.comments == old(commentRepository.comments)[saved.id := saved] &&
                commentRepository.nextId == old(commentRepository.nextId) + 1
    {
      if itemId !in itemRepository.items {
        return Err(NotFound);
      }
      if userId !in userRepository.users {
        return Err(NotFound);
      }
      var bookings := LastBookings(userId, itemId, now);
      if |bookings| == 0 {
        return Err(BadRequestParam);
      }
      var booking := bookings[0];
      if booking.bookerId == userId {
        var comment := commentRepository.Save(Comment(0, c.text, userId, itemId, now));
        return Ok(comment);
      } else {
        assert false;
      }
    }

    /** The repository's getLastBookingByBookerIdAndItemId over the stored
        bookings: the user's bookings of the item that ended before `now`,
        most recently ended first; empty exactly when there is none. */
    function LastBookings(userId: int, itemId: int, now: int): (r: seq<Booking>)
      reads this, bookingRepository
      requires bookingRepository.Valid()
      ensures |r| > 0 <==> HasFinishedBooking(userId, itemId, now)
      ensures forall b :: b in r ==> b.bookerId == userId && b.itemId == itemId && b.end < now
      ensures SortedByEndDesc(r)
    {
      var q := GetLastBookingByBookerIdAndItemId(userId, itemId, now);
      var m, n := bookingRepository.bookings, bookingRepository.nextId;
      RunOverStoredNonEmpty(q, m, n);
      assert HasFinishedBooking(userId, itemId, now) <==> exists k :: 1 <= k < n && Selects(q, m[k]) by {
        if HasFinishedBooking(userId, itemId, now) {
          var k :| k in m && m[k].bookerId == userId && m[k].itemId == itemId && m[k].end < now;
          assert 1 <= k < n && Selects(q, m[k]);
        }
      }
      Run(q, bookingRepository.InIdOrder())
    }

    /** Comments are gated on the booking having ended, not on its status: a
        REJECTED booking that ended before now also permits a comment. */
    lemma RejectedBookingPermitsComment(k: int, now: int)
      requires k in bookingRepository.bookings
      requires bookingRepository.bookings[k].status == Some(Rejected)
      requires bookingRepository.bookings[k].end < now
      ensures HasFinishedBooking(bookingRepository.bookings[k].bookerId, bookingRepository.bookings[k].itemId, now)
    {
    }

    /** A booking still under way at now does not permit a comment. */
    lemma OngoingBookingAloneForbidsComment(userId: int, itemId: int, now: int)
      requires forall k :: (k in bookingRepository.bookings &&
                            bookingRepository.bookings[k].bookerId == userId &&
                            bookingRepository.bookings[k].itemId == itemId) ==>
                              bookingRepository.bookings[k].end >= now
      ensures !HasFinishedBooking(userId, itemId, now)
    {
    }
  }
}
