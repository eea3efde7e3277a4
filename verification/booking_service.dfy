/**
  The booking service: creating a booking, the owner's approve/reject
  decision, reading one booking, and the booker's and owner's listings.
  Every operation is a pure function of the store and, where time matters,
  of an explicit `now`.
 */
module BookingService {
  import opened Wrappers
  import opened Tables
  import opened Model
  import opened BookingQueries

  /** The body of a booking request; absent dates are Java nulls. */
  datatype BookingRequest = BookingRequest(itemId: int, start: Option<Time>, end: Option<Time>)

  /** Both dates present, the start in the future and the end after the start. */
  predicate ValidPeriod(req: BookingRequest, now: Time) {
    && req.start.Some?
    && req.end.Some?
    && now < req.start.value
    && req.start.value < req.end.value
  }

  /** Checks, in order: requester and item exist, dates, not the owner, item available. */
  function CreateBooking(s: Store, userId: int, req: BookingRequest, now: Time): (r: Result<Saved<Booking>, Error>)
    ensures FindUser(s, userId).None? || FindItem(s, req.itemId).None? ==> r == Err(UserNotFound)
    ensures FindUser(s, userId).Some? && FindItem(s, req.itemId).Some? ==>
      var item := FindItem(s, req.itemId).value;
      && (!ValidPeriod(req, now) ==> r == Err(Validation))
      && (ValidPeriod(req, now) && item.owner == userId ==> r == Err(BookingNotFound))
      && (ValidPeriod(req, now) && item.owner != userId && !item.available ==> r == Err(ItemNotAvailable))
      && (ValidPeriod(req, now) && item.owner != userId && item.available ==> r.Ok?)
    ensures r.Ok? ==>
      var b := r.value.value;
      && b.status == WAITING
      && b.booker == userId
      && b.item == req.itemId
      && req.start == Some(b.start)
      && req.end == Some(b.end)
      && b.id == s.next.booking
      && (Numbered(s) ==> FindBooking(s, b.id).None?)
      && r.value.store == s.(bookings := s.bookings + [b], next := s.next.(booking := b.id + 1))
  {
    var user := FindUser(s, userId);
    var item := FindItem(s, req.itemId);
    if user.None? || item.None? then Err(UserNotFound)
    else if !ValidPeriod(req, now) then Err(Validation)
    else if item.value.owner == userId then Err(BookingNotFound)
    else if !item.value.available then Err(ItemNotAvailable)
    else
      var b := Booking(s.next.booking, req.start.value, req.end.value, req.itemId, userId, WAITING);
      Ok(Saved(s.(bookings := s.bookings + [b], next := s.next.(booking := b.id + 1)), b))
  }

  /** The status an owner's decision moves a waiting booking to. */
  function Decision(approved: bool): Status {
    if approved then APPROVED else REJECTED
  }

  /**
    The owner's decision on a booking. Checks, in order: booking and its item
    exist, the actor owns the item, the booking is still waiting.
   */
  function ApproveBooking(s: Store, userId: int, bookingId: int, approved: bool): (r: Result<Saved<Booking>, Error>)
    ensures FindBooking(s, bookingId).None? ==> r == Err(BookingNotFound)
    ensures FindBooking(s, bookingId).Some? ==>
      var b := FindBooking(s, bookingId).value;
      var item := FindItem(s, b.item);
      && (item.None? ==> r == Err(BookingNotFound))
      && (item.Some? && item.value.owner != userId ==> r == Err(AccessError))
      && (item.Some? && item.value.owner == userId && b.status != WAITING ==> r == Err(BookingApprove))
      && (item.Some? && item.value.owner == userId && b.status == WAITING ==>
            r.Ok? && r.value.value == b.(status := Decision(approved)))
    ensures r.Ok? ==>
      && FindBooking(r.value.store, bookingId) == Some(r.value.value)
      && r.value.store == s.(bookings := Replace(s.bookings, BookingId, r.value.value))
  {
    var booking := FindBooking(s, bookingId);
    if booking.None? then Err(BookingNotFound)
    else
      var b := booking.value;
      var item := FindItem(s, b.item);
      if item.None? then Err(BookingNotFound)
      else if item.value.owner != userId then Err(AccessError)
      else if b.status != WAITING then Err(BookingApprove)
      else
        var decided := b.(status := Decision(approved));
        FindReplace(s.bookings, BookingId, decided, bookingId);
        Ok(Saved(s.(bookings := Replace(s.bookings, BookingId, decided)), decided))
  }

  /** Reading one booking: only its booker and the owner of its item may see it. */
  function FindBookingById(s: Store, userId: int, bookingId: int): (r: Result<Booking, Error>)
    ensures FindBooking(s, bookingId).None? ==> r == Err(BookingNotFound)
    ensures FindBooking(s, bookingId).Some? ==>
      var b := FindBooking(s, bookingId).value;
      var item := FindItem(s, b.item);
      && (item.None? ==> r == Err(BookingNotFound))
      && (item.Some? && (userId == b.booker || userId == item.value.owner) ==> r == Ok(b))
      && (item.Some? && userId != b.booker && userId != item.value.owner ==> r == Err(AccessError))
  {
    var booking := FindBooking(s, bookingId);
    if booking.None? then Err(BookingNotFound)
    else
      var b := booking.value;
      var item := FindItem(s, b.item);
      if item.None? then Err(BookingNotFound)
      else if userId != b.booker && userId != item.value.owner then Err(AccessError)
      else Ok(b)
  }

  /**
    A booker's or owner's listing. Checks, in order: the user exists, the state
    token is known, the page is well formed. Then one page of the matching
    bookings, latest `end` first.
   */
  function ListBookings(s: Store, key: Key, userId: int, token: string, from: int, size: int, now: Time)
    : (r: Result<seq<Booking>, Error>)
    ensures FindUser(s, userId).None? ==> r == Err(UserNotFound)
    ensures FindUser(s, userId).Some? && ParseState(token).None? ==> r == Err(UnsupportedStatus)
    ensures FindUser(s, userId).Some? && ParseState(token).Some? && (from < 0 || size <= 0) ==> r == Err(Validation)
    ensures FindUser(s, userId).Some? && ParseState(token).Some? && from >= 0 && size > 0 ==> r.Ok?
    ensures r.Ok? ==> |r.value| <= size
    ensures r.Ok? ==> EndDescending(r.value)
    ensures r.Ok? ==> forall b | b in r.value ::
      b in s.bookings && KeyedTo(s, b, key, userId) && Matches(b, ParseState(token).value, now)
    ensures r.Ok? ==>
      var q := Query(s, key, userId, ParseState(token).value, now);
      && |r.value| == (if from < |q| then Min(size, |q| - from) else 0)
      && forall i | 0 <= i < |r.value| :: r.value[i] == q[from + i]
  {
    if FindUser(s, userId).None? then Err(UserNotFound)
    else
      var st := ParseState(token);
      if st.None? then Err(UnsupportedStatus)
      else if from < 0 || size <= 0 then Err(Validation)
      else
        var all := Query(s, key, userId, st.value, now);
        var page := Page(all, from, size);
        assert forall b | b in page :: b in all;
        Ok(page)
  }

  /**
    Every page of a listing is the matching window of the one `end`-descending
    listing of exactly the bookings the key and state select.
   */
  lemma ListBookingsWindow(s: Store, key: Key, userId: int, token: string, from: int, size: int, now: Time,
                           listing: seq<Booking>)
    requires FindUser(s, userId).Some? && ParseState(token).Some?
    requires from >= 0 && size > 0
    requires UniqueKeys(s.bookings, BookingId)
    requires forall i, j | 0 <= i < j < |listing| :: listing[i].end > listing[j].end
    requires forall b | b in listing :: b in s.bookings && Selected(s, key, userId, ParseState(token).value, now, b)
    requires forall b | b in s.bookings && Selected(s, key, userId, ParseState(token).value, now, b) :: b in listing
    ensures ListBookings(s, key, userId, token, from, size, now) == Ok(Page(listing, from, size))
  {
    QueryDetermined(s, key, userId, ParseState(token).value, now, listing);
  }
}
