/**
  Properties that relate several operations: what a created booking looks
  like to the later reads, listings and decisions, when its booker may comment,
  and how the owner's view of bookings relates to the booker's.
 */
module Lifecycle {
  import opened Wrappers
  import opened Tables
  import opened Model
  import opened BookingQueries
  import opened BookingService
  import opened ItemService
  import opened UserService

  /** A booking just created is returned unchanged to its booker and to the item's owner, and to nobody else. */
  lemma {:induction false} CreateThenFind(s: Store, userId: int, req: BookingRequest, now: Time, reader: int)
    requires Numbered(s)
    requires CreateBooking(s, userId, req, now).Ok?
    ensures
      var saved := CreateBooking(s, userId, req, now).value;
      var owner := FindItem(s, req.itemId).value.owner;
      FindBookingById(saved.store, reader, saved.value.id) ==
        if reader == userId || reader == owner then Ok(saved.value) else Err(AccessError)
  {
    var saved := CreateBooking(s, userId, req, now).value;
    FindAppend(s.bookings, BookingId, saved.value, saved.value.id);
    assert FindBooking(saved.store, saved.value.id) == Some(saved.value);
  }

  /**
    The owner's first decision on a new booking sets its status; any second
    decision is refused as already decided, and anyone else is refused access.
   */
  lemma {:induction false} DecideOnce(s: Store, userId: int, req: BookingRequest, now: Time, first: bool, second: bool, actor: int)
    requires Numbered(s)
    requires CreateBooking(s, userId, req, now).Ok?
    ensures
      var saved := CreateBooking(s, userId, req, now).value;
      var owner := FindItem(s, req.itemId).value.owner;
      var decided := ApproveBooking(saved.store, owner, saved.value.id, first);
      && decided.Ok?
      && decided.value.value == saved.value.(status := Decision(first))
      && ApproveBooking(decided.value.store, actor, saved.value.id, second) ==
           if actor == owner then Err(BookingApprove) else Err(AccessError)
  {
    var saved := CreateBooking(s, userId, req, now).value;
    FindAppend(s.bookings, BookingId, saved.value, saved.value.id);
  }

  /** A decision moves a waiting booking to APPROVED or REJECTED and changes nothing else in the store. */
  lemma {:induction false} DecisionChangesOnlyItsBooking(s: Store, userId: int, bookingId: int, approved: bool, other: int)
    requires ApproveBooking(s, userId, bookingId, approved).Ok?
    ensures
      var d := ApproveBooking(s, userId, bookingId, approved).value;
      && FindBooking(s, bookingId).value.status == WAITING
      && (d.value.status == APPROVED <==> approved)
      && (d.value.status == REJECTED <==> !approved)
      && d.value == FindBooking(s, bookingId).value.(status := d.value.status)
      && (other != bookingId ==> FindBooking(d.store, other) == FindBooking(s, other))
      && d.store.users == s.users && d.store.items == s.items && d.store.comments == s.comments
  {
    var d := ApproveBooking(s, userId, bookingId, approved).value;
    FindReplace(s.bookings, BookingId, d.value, other);
  }

  /** A query never returns more rows than the bookings table holds. */
  lemma QueryFits(s: Store, key: Key, userId: int, st: State, now: Time)
    ensures |Query(s, key, userId, st, now)| <= |s.bookings|
  {
    var q := Query(s, key, userId, st, now);
    assert |multiset(q)| <= |multiset(s.bookings)|;
  }

  /** With a page as large as the table, a listing shows every booking its key and state select. */
  lemma {:induction false} ListingIsComplete(s: Store, key: Key, userId: int, token: string, size: int, now: Time, b: Booking)
    requires FindUser(s, userId).Some?
    requires ParseState(token).Some?
    requires size >= |s.bookings| && size > 0
    requires b in s.bookings && KeyedTo(s, b, key, userId) && Matches(b, ParseState(token).value, now)
    ensures ListBookings(s, key, userId, token, 0, size, now).Ok?
    ensures b in ListBookings(s, key, userId, token, 0, size, now).value
  {
    var q := Query(s, key, userId, ParseState(token).value, now);
    QueryFits(s, key, userId, ParseState(token).value, now);
    assert Page(q, 0, size) == q;
    assert b in q;
  }

  /** A booker's ALL listing holds every booking they made, whatever its status or dates. */
  lemma {:induction false} AllListsEveryBooking(s: Store, userId: int, size: int, now: Time, b: Booking)
    requires FindUser(s, userId).Some?
    requires size >= |s.bookings| && size > 0
    requires b in s.bookings && b.booker == userId
    ensures ListBookings(s, ByBooker, userId, "ALL", 0, size, now).Ok?
    ensures b in ListBookings(s, ByBooker, userId, "ALL", 0, size, now).value
  {
    ParseStateName(All);
    ListingIsComplete(s, ByBooker, userId, "ALL", size, now, b);
  }

  /** After the owner rejects a booking, the owner's REJECTED listing shows it as decided. */
  lemma {:induction false} RejectedIsListed(s: Store, ownerId: int, bookingId: int, size: int, now: Time)
    requires FindUser(s, ownerId).Some?
    requires ApproveBooking(s, ownerId, bookingId, false).Ok?
    requires size >= |s.bookings| && size > 0
    ensures
      var d := ApproveBooking(s, ownerId, bookingId, false).value;
      var listed := ListBookings(d.store, ByOwner, ownerId, "REJECTED", 0, size, now);
      listed.Ok? && d.value in listed.value
  {
    var d := ApproveBooking(s, ownerId, bookingId, false).value;
    var b := FindBooking(s, bookingId).value;
    var item := FindItem(s, b.item);
    assert item.Some? && item.value.owner == ownerId && b.status == WAITING;
    assert d.value == b.(status := REJECTED);
    assert d.store.items == s.items && d.store.users == s.users;
    assert |d.store.bookings| == |s.bookings|;
    RejectedToken();
    assert d.value in d.store.bookings;
    assert KeyedTo(d.store, d.value, ByOwner, ownerId);
    ListingIsComplete(d.store, ByOwner, ownerId, "REJECTED", size, now, d.value);
  }

  /** The upper-case token "REJECTED" reads as the REJECTED state. */
  lemma RejectedToken()
    ensures ParseState("REJECTED") == Some(Rejected)
  {
    ParseStateName(Rejected);
  }

  /**
    When one user made every booking and another owns every booked item, the
    owner's query and the booker's query return the same bookings in the same order.
   */
  lemma {:induction false} OwnerViewMatchesBookerView(s: Store, ownerId: int, bookerId: int, st: State, now: Time)
    requires forall b | b in s.bookings :: b.booker == bookerId
    requires forall b | b in s.bookings :: FindItem(s, b.item).Some? && FindItem(s, b.item).value.owner == ownerId
    ensures Query(s, ByOwner, ownerId, st, now) == Query(s, ByBooker, bookerId, st, now)
  {
    FilterAgree(s.bookings, Selector(s, ByOwner, ownerId, st, now), Selector(s, ByBooker, bookerId, st, now));
  }

  /** Once a booking has ended, its booker may comment on the item. */
  lemma {:induction false} CommentAfterBookingEnds(s: Store, userId: int, req: BookingRequest, now: Time, later: Time, text: string)
    requires CreateBooking(s, userId, req, now).Ok?
    requires !Blank(text)
    requires req.end.value < later
    ensures
      var saved := CreateBooking(s, userId, req, now).value;
      CreateComment(saved.store, userId, req.itemId, text, later).Ok?
  {
    var saved := CreateBooking(s, userId, req, now).value;
    assert saved.value in saved.store.bookings;
    assert FindUser(saved.store, userId) == FindUser(s, userId);
  }

  /**
    A booking that has not ended does not entitle its booker to comment: with
    no earlier finished booking of the item, a comment at creation time is refused.
   */
  lemma {:induction false} NoCommentBeforeBookingEnds(s: Store, userId: int, req: BookingRequest, now: Time, text: string)
    requires CreateBooking(s, userId, req, now).Ok?
    requires !Blank(text)
    requires !FinishedBooking(s, userId, req.itemId, now)
    ensures
      var saved := CreateBooking(s, userId, req, now).value;
      CreateComment(saved.store, userId, req.itemId, text, now) == Err(Validation)
  {
    var saved := CreateBooking(s, userId, req, now).value;
    assert forall b | b in saved.store.bookings :: b in s.bookings || b == saved.value;
    assert FindUser(saved.store, userId) == FindUser(s, userId);
  }

  // Keys are handed out once: a deletion frees no key for a later insert.

  /** The user registered after a deletion does not get the deleted user's key. */
  lemma {:induction false} UserKeyNotReused(s: Store, userId: int, input: UserInput)
    requires Numbered(s)
    requires RemoveUser(s, userId).Ok?
    requires CreateUser(RemoveUser(s, userId).value, input).Ok?
    ensures CreateUser(RemoveUser(s, userId).value, input).value.value.id != userId
  {
    var u := FindUser(s, userId).value;
    assert u in s.users;
  }

  /** The item created after a deletion does not get the deleted item's key. */
  lemma {:induction false} ItemKeyNotReused(s: Store, owner: int, itemId: int, userId: int, input: ItemInput)
    requires Numbered(s)
    requires RemoveItem(s, owner, itemId).Ok?
    requires CreateItem(RemoveItem(s, owner, itemId).value, userId, input).Ok?
    ensures CreateItem(RemoveItem(s, owner, itemId).value, userId, input).value.value.id != itemId
  {
    var it := FindItem(s, itemId).value;
    assert it in s.items;
  }

  /**
    A new item has no history: no stored booking or comment refers to its key,
    even where a deleted item left bookings behind, so no booking lets anyone
    comment on it.
   */
  lemma {:induction false} NewItemHasNoBookings(s: Store, userId: int, input: ItemInput, booker: int, text: string, now: Time)
    requires Valid(s)
    requires CreateItem(s, userId, input).Ok?
    ensures
      var saved := CreateItem(s, userId, input).value;
      && (forall b | b in saved.store.bookings :: b.item != saved.value.id)
      && (forall c | c in saved.store.comments :: c.item != saved.value.id)
      && !FinishedBooking(saved.store, booker, saved.value.id, now)
      && (!Blank(text) && FindUser(saved.store, booker).Some? ==>
            CreateComment(saved.store, booker, saved.value.id, text, now) == Err(Validation))
  {
    var saved := CreateItem(s, userId, input).value;
    assert saved.store.bookings == s.bookings && saved.store.comments == s.comments;
    assert FindItem(saved.store, saved.value.id).Some? by {
      FindAppend(s.items, ItemId, saved.value, saved.value.id);
    }
  }
}
