/** The relational store behind the server's services: one class per JPA
    repository, each a map from id to row. Ids are generated by the database
    (IDENTITY): they count up from 1 and are never reused. `Save` inserts a
    row whose id is 0 under a fresh id and overwrites the row of any other id. */
module Repositories {
  import opened Outcomes
  import opened Users
  import opened Items
  import opened Bookings
  import opened BookingQueries

  class UserRepository {
    var users: map<int, User>
    var nextId: int

    ghost predicate Valid()
      reads this
    {
      1 <= nextId && forall k :: k in users ==> users[k].id == k && 1 <= k < nextId
    }

    /** No two stored users share an email. */
    ghost predicate EmailsUnique()
      reads this
    {
      forall a, b :: a in users && b in users && users[a].email == users[b].email ==> a == b
    }

    /** existsUserByEmail. */
    predicate ExistsUserByEmail(email: string)
      reads this
    {
      exists k :: k in users && users[k].email == email
    }

    constructor ()
      ensures Valid() && EmailsUnique()
      ensures users == map[] && nextId == 1
    {
      users := map[];
      nextId := 1;
    }

    method Save(u: User) returns (saved: User)
      requires Valid()
      requires u.id == 0 || u.id in users
      modifies this
      ensures Valid()
      ensures saved == u.(id := if u.id == 0 then old(nextId) else u.id)
      ensures users == old(users)[saved.id := saved]
      ensures nextId == if u.id == 0 then old(nextId) + 1 else old(nextId)
    {
      saved := u;
      if u.id == 0 {
        saved := u.(id := nextId);
        nextId := nextId + 1;
      }
      users := users[saved.id := saved];
    }

    method DeleteById(id: int)
      requires Valid()
      modifies this
      ensures Valid()
      ensures users == old(users) - {id} && nextId == old(nextId)
    {
      users := users - {id};
    }
  }

  class ItemRepository {
    var items: map<int, Item>
    var nextId: int

    ghost predicate Valid()
      reads this
    {
      1 <= nextId && forall k :: k in items ==> items[k].id == k && 1 <= k < nextId
    }

    constructor ()
      ensures Valid()
      ensures items == map[] && nextId == 1
    {
      items := map[];
      nextId := 1;
    }

    method Save(it: Item) returns (saved: Item)
      requires Valid()
      requires it.id == 0 || it.id in items
      modifies this
      ensures Valid()
      ensures saved == it.(id := if it.id == 0 then old(nextId) else it.id)
      ensures items == old(items)[saved.id := saved]
      ensures nextId == if it.id == 0 then old(nextId) + 1 else old(nextId)
    {
      saved := it;
      if it.id == 0 {
        saved := it.(id := nextId);
        nextId := nextId + 1;
      }
      items := items[saved.id := saved];
    }

    method DeleteById(id: int)
      requires Valid()
      modifies this
      ensures Valid()
      ensures items == old(items) - {id} && nextId == old(nextId)
    {
      items := items - {id};
    }
  }

  /** Bookings are never deleted, so the stored ids are exactly 1 .. nextId - 1;
      every stored booking has a status. */
  class BookingRepository {
    var bookings: map<int, Booking>
    var nextId: int

    ghost predicate Valid()
      reads this
    {
      1 <= nextId &&
      (forall k :: k in bookings <==> 1 <= k < nextId) &&
      (forall k :: k in bookings ==> bookings[k].id == k && bookings[k].status.Some?)
    }

    constructor ()
      ensures Valid()
      ensures bookings == map[] && nextId == 1
    {
      bookings := map[];
      nextId := 1;
    }

    /** The stored bookings in id order: the rows a query scans. */
    function InIdOrder(): seq<Booking>
      reads this
      requires Valid()
    {
      Ordered(bookings, nextId)
    }

    method Save(b: Booking) returns (saved: Booking)
      requires Valid()
      requires b.id == 0 || b.id in bookings
      requires b.status.Some?
      modifies this
      ensures Valid()
      ensures saved == b.(id := if b.id == 0 then old(nextId) else b.id)
      ensures bookings == old(bookings)[saved.id := saved]
      ensures nextId == if b.id == 0 then old(nextId) + 1 else old(nextId)
    {
      saved := b;
      if b.id == 0 {
        saved := b.(id := nextId);
        nextId := nextId + 1;
      }
      bookings := bookings[saved.id := saved];
    }
  }

  class CommentRepository {
    var comments: map<int, Comment>
    var nextId: int

    ghost predicate Valid()
      reads this
    {
      1 <= nextId && forall k :: k in comments ==> comments[k].id == k && 1 <= k < nextId
    }

    constructor ()
      ensures Valid()
      ensures comments == map[] && nextId == 1
    {
      comments := map[];
      nextId := 1;
    }

    /** Inserts a new comment (id 0) under a fresh id. */
    method Save(c: Comment) returns (saved: Comment)
      requires Valid()
      requires c.id == 0
      modifies this
      ensures Valid()
      ensures saved == c.(id := old(nextId))
      ensures comments == old(comments)[saved.id := saved] && nextId == old(nextId) + 1
    {
      saved := c.(id := nextId);
      nextId := nextId + 1;
      comments := comments[saved.id := saved];
    }
  }

  /** The item requests, by id; their contents are not part of this model. */
  class ItemRequestRepository {
    var requestIds: set<int>

    constructor (ids: set<int>)
      ensures requestIds == ids
    {
      requestIds := ids;
    }
  }
}
