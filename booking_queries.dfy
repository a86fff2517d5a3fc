/** The JPQL queries of BookingRepository
    (src/main/java/ru/practicum/shareit/booking/repository/BookingRepository.java).
    Each query is a filter over the stored bookings followed by
    ORDER BY end DESC; the model sorts stably, so bookings with equal ends keep
    the order of the store (by id). */
module BookingQueries {
  import opened Outcomes
  import opened Bookings

  /** One constructor per repository query, named after it, with its
      parameters. `date` is the moment the service passes as "now". */
  datatype Query =
    | FindAllByBookerId(bookerId: int)
    | FindPastByBookerId(bookerId: int, date: int)
    | FindFutureByBookerId(bookerId: int, date: int)
    | FindCurrentByBookerId(bookerId: int, date: int)
    | FindWaitingOrRejectedByBookerId(bookerId: int, status: BookingStatus)
    | FindAllByOwnerId(ownerId: int)
    | FindPastByOwnerId(ownerId: int, date: int)
    | FindFutureByOwnerId(ownerId: int, date: int)
    | FindCurrentByOwnerId(ownerId: int, date: int)
    | FindWaitingOrRejectedByOwnerId(ownerId: int, status: BookingStatus)
    | GetLastBookingByBookerIdAndItemId(bookerId: int, itemId: int, date: int)

  /** The query runs on behalf of a booker (otherwise of an item owner). */
  predicate IsBookerQuery(q: Query) {
    q.FindAllByBookerId? || q.FindPastByBookerId? || q.FindFutureByBookerId? ||
    q.FindCurrentByBookerId? || q.FindWaitingOrRejectedByBookerId? ||
    q.GetLastBookingByBookerIdAndItemId?
  }

  /** The WHERE clause of each query. Every query is confined to one user's
      bookings in one role, and the comment-eligibility query to one item
      as well. */
  predicate Selects(q: Query, b: Booking): (r: bool)
    ensures r && IsBookerQuery(q) ==> b.bookerId == q.bookerId
    ensures r && !IsBookerQuery(q) ==> b.ownerId == q.ownerId
    ensures r && q.GetLastBookingByBookerIdAndItemId? ==> b.itemId == q.itemId && b.end < q.date
  {
    match q
    case FindAllByBookerId(u) => b.bookerId == u
    case FindPastByBookerId(u, d) => b.bookerId == u && b.end <= d
    case FindFutureByBookerId(u, d) => b.bookerId == u && b.start >= d
    case FindCurrentByBookerId(u, d) => b.bookerId == u && b.start <= d && b.end >= d
    case FindWaitingOrRejectedByBookerId(u, st) => b.bookerId == u && b.status == Some(st)
    case FindAllByOwnerId(o) => b.ownerId == o
    case FindPastByOwnerId(o, d) => b.ownerId == o && b.end <= d
    case FindFutureByOwnerId(o, d) => b.ownerId == o && b.end >= d
    case FindCurrentByOwnerId(o, d) => b.ownerId == o && b.start <= d && b.end >= d
    case FindWaitingOrRejectedByOwnerId(o, st) => b.ownerId == o && b.status == Some(st)
    case GetLastBookingByBookerIdAndItemId(u, i, d) => b.bookerId == u && b.itemId == i && b.end < d
  }

  /** Most recently ending first. */
  predicate SortedByEndDesc(s: seq<Booking>) {
    forall i, j :: 0 <= i < j < |s| ==> s[i].end >= s[j].end
  }

  /** No booking occurs twice. */
  ghost predicate NoDuplicates(s: seq<Booking>) {
    forall b :: multiset(s)[b] <= 1
  }

  /** In a sequence without duplicates, two positions hold different bookings. */
  lemma DistinctAt(s: seq<Booking>, i: int, j: int)
    requires NoDuplicates(s) && 0 <= i < j < |s|
    ensures s[i] != s[j]
  {
    assert s == s[..j] + s[j..];
    var x := s[i];
    assert x in s[..j] && s[j] in s[j..];
    assert multiset(s)[x] == multiset(s[..j])[x] + multiset(s[j..])[x];
  }

  /** The stored bookings in id order: m[1], ..., m[n - 1]. */
  function Ordered(m: map<int, Booking>, n: int): (r: seq<Booking>)
    requires forall k :: 1 <= k < n ==> k in m && m[k].id == k
    ensures |r| == if n <= 1 then 0 else n - 1
    ensures forall i :: 0 <= i < |r| ==> r[i] == m[i + 1]
    ensures forall b :: b in r ==> b.id in m && m[b.id] == b
    ensures forall k :: 1 <= k < n ==> m[k] in r
    ensures NoDuplicates(r)
    decreases n
  {
    if n <= 1 then []
    else
      var prefix := Ordered(m, n - 1);
      var last := m[n - 1];
      assert last !in prefix by {
        forall i | 0 <= i < |prefix| ensures prefix[i] != last {
          assert prefix[i].id == i + 1;
        }
      }
      prefix + [last]
  }

  /** The bookings of `s` that the query selects, in the order of `s`. */
  function Filter(q: Query, s: seq<Booking>): (r: seq<Booking>)
    ensures forall b :: b in r <==> b in s && Selects(q, b)
    ensures multiset(r) <= multiset(s)
  {
    if s == [] then []
    else
      assert s == [s[0]] + s[1..];
      if Selects(q, s[0]) then [s[0]] + Filter(q, s[1..])
      else Filter(q, s[1..])
  }

  /** Prepending a booking that ends no earlier than every other keeps the
      order. */
  lemma PrependSorted(x: Booking, t: seq<Booking>)
    requires SortedByEndDesc(t)
    requires forall y :: y in t ==> x.end >= y.end
    ensures SortedByEndDesc([x] + t)
  {
    var r := [x] + t;
    forall i, j | 0 <= i < j < |r| ensures r[i].end >= r[j].end {
      if i > 0 { assert r[i] == t[i - 1] && r[j] == t[j - 1]; }
      else { assert r[j] in t; }
    }
  }

  /** Inserts `b` before the first booking that ends no later than it. */
  function InsertByEndDesc(b: Booking, s: seq<Booking>): (r: seq<Booking>)
    requires SortedByEndDesc(s)
    ensures SortedByEndDesc(r)
    ensures multiset(r) == multiset(s) + multiset{b}
  {
    if s == [] || s[0].end <= b.end then
      PrependSorted(b, s);
      [b] + s
    else
      var rest := InsertByEndDesc(b, s[1..]);
      assert s == [s[0]] + s[1..];
      forall x | x in rest ensures s[0].end >= x.end {
        assert x in multiset(rest);
        assert x == b || x in s[1..];
      }
      PrependSorted(s[0], rest);
      [s[0]] + rest
  }

  /** A stable insertion sort by end, descending. */
  function SortByEndDesc(s: seq<Booking>): (r: seq<Booking>)
    ensures SortedByEndDesc(r)
    ensures multiset(r) == multiset(s)
  {
    if s == [] then [] else
      assert s == [s[0]] + s[1..];
      InsertByEndDesc(s[0], SortByEndDesc(s[1..]))
  }

  /** A query run against the bookings `s`: exactly the bookings of `s` it
      selects, sorted by end descending, each as often as in `s`. */
  function Run(q: Query, s: seq<Booking>): (r: seq<Booking>)
    ensures SortedByEndDesc(r)
    ensures forall b :: b in r <==> b in s && Selects(q, b)
    ensures multiset(r) <= multiset(s)
    ensures NoDuplicates(s) ==> NoDuplicates(r)
  {
    var f := Filter(q, s);
    var r := SortByEndDesc(f);
    assert forall b :: b in r <==> b in f by {
      forall b ensures b in r <==> b in f {
        assert b in r <==> b in multiset(r);
        assert b in f <==> b in multiset(f);
      }
    }
    r
  }

  /** A query run over the stored bookings finds something exactly when a
      stored booking satisfies it. */
  lemma RunOverStoredNonEmpty(q: Query, m: map<int, Booking>, n: int)
    requires forall k :: 1 <= k < n ==> k in m && m[k].id == k
    ensures |Run(q, Ordered(m, n))| > 0 <==> exists k :: 1 <= k < n && Selects(q, m[k])
  {
    var s := Ordered(m, n);
    var r := Run(q, s);
    if |r| > 0 {
      var i := RunPicksStored(q, s, r[0]);
      assert s[i] == m[i + 1];
    } else {
      forall k | 1 <= k < n ensures !Selects(q, m[k]) {
        assert m[k] in s;
        assert m[k] !in r;
      }
    }
  }

  /** A booking a query returns comes from some position of the scanned
      sequence and satisfies the query. */
  lemma RunPicksStored(q: Query, s: seq<Booking>, b: Booking) returns (i: int)
    requires b in Run(q, s)
    ensures 0 <= i < |s| && s[i] == b && Selects(q, b)
  {
    i :| 0 <= i < |s| && s[i] == b;
  }

  /** An owner's CURRENT bookings are among the owner's FUTURE bookings: both
      queries require end >= date. */
  lemma OwnerCurrentWithinFuture(ownerId: int, date: int, s: seq<Booking>)
    ensures forall b :: b in Run(FindCurrentByOwnerId(ownerId, date), s) ==>
                        b in Run(FindFutureByOwnerId(ownerId, date), s)
  {
  }

  /** FUTURE means different things for the two roles: a booking under way
      is FUTURE for its item's owner (end >= date) but not for its booker
      (start >= date). */
  lemma FutureAsymmetry(b: Booking, date: int)
    requires b.start < date <= b.end
    ensures Selects(FindFutureByOwnerId(b.ownerId, date), b)
    ensures !Selects(FindFutureByBookerId(b.bookerId, date), b)
  {
  }

  /** PAST and CURRENT both include their bounds, so a booking is in both
      exactly when it ends at the queried moment. */
  lemma PastAndCurrentMeetAtEnd(b: Booking, userId: int, date: int)
    ensures Selects(FindPastByBookerId(userId, date), b) && Selects(FindCurrentByBookerId(userId, date), b)
        <==> b.bookerId == userId && b.start <= date && b.end == date
    ensures Selects(FindPastByOwnerId(userId, date), b) && Selects(FindCurrentByOwnerId(userId, date), b)
        <==> b.ownerId == userId && b.start <= date && b.end == date
  {
  }

  /** The comment-eligibility query is strict: a booking that ends exactly
      now is PAST for its booker but not yet eligible. */
  lemma LastBookingIsStrict(b: Booking, date: int)
    requires b.end == date
    ensures Selects(FindPastByBookerId(b.bookerId, date), b)
    ensures !Selects(GetLastBookingByBookerIdAndItemId(b.bookerId, b.itemId, date), b)
  {
  }

  /** Every booking the comment-eligibility query returns belongs to the
      given booker and item and ended strictly before the given moment. */
  lemma LastBookingResults(bookerId: int, itemId: int, date: int, s: seq<Booking>)
    ensures forall b :: b in Run(GetLastBookingByBookerIdAndItemId(bookerId, itemId, date), s) ==>
                        b.bookerId == bookerId && b.itemId == itemId && b.end < date
  {
  }
}
