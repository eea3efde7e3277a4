/**
  The repository's own test data replayed against the model: five bookings
  of one item by one booker, listed in every state by booker and by owner,
  and the item's last and next booking.
 */
module Scenarios {
  import opened Wrappers
  import opened Tables
  import opened Model
  import opened BookingQueries
  import opened BookingService
  import opened Lifecycle

  /** A calendar minute as an integer that keeps the order of `LocalDateTime`. */
  function Stamp(year: int, month: int, day: int, hour: int, minute: int): Time {
    (((year * 13 + month) * 32 + day) * 24 + hour) * 60 + minute
  }

  const Owner := User(1, "email1@mail.ru", "Name1")
  const Booker := User(2, "email2@mail.ru", "Name2")
  const Thing := Item(1, "ItemName", "Description", true, 1, None)

  const B1 := Booking(1, Stamp(2023, 5, 1, 12, 0), Stamp(2023, 5, 31, 12, 0), 1, 2, APPROVED)
  const B2 := Booking(2, Stamp(2023, 4, 1, 12, 0), Stamp(2023, 4, 10, 12, 0), 1, 2, REJECTED)
  const B3 := Booking(3, Stamp(2023, 4, 20, 12, 0), Stamp(2023, 4, 25, 12, 0), 1, 2, APPROVED)
  const B4 := Booking(4, Stamp(2023, 6, 1, 12, 0), Stamp(2023, 6, 15, 12, 0), 1, 2, APPROVED)
  const B5 := Booking(5, Stamp(2023, 6, 20, 12, 0), Stamp(2023, 6, 25, 12, 0), 1, 2, WAITING)

  const Repo := Store([Owner, Booker], [Thing], [B1, B2, B3, B4, B5], [], NextKeys(3, 2, 6, 1))

  /** The date the repository's tests were written for: CURRENT then means booking 1. */
  const Today := Stamp(2023, 5, 15, 12, 0)

  /** The fixture's bookings table: five rows under distinct keys. */
  lemma RepoRows()
    ensures forall b | b in Repo.bookings :: b == B1 || b == B2 || b == B3 || b == B4 || b == B5
    ensures UniqueKeys(Repo.bookings, BookingId)
  {
  }

  /** The booker made every booking and the owner owns the one item, so both see the same lists. */
  lemma RepoOwnerSeesBookerView(st: State, now: Time)
    ensures Query(Repo, ByOwner, 1, st, now) == Query(Repo, ByBooker, 2, st, now)
  {
    assert FindItem(Repo, 1) == Some(Thing);
    OwnerViewMatchesBookerView(Repo, 1, 2, st, now);
  }

  /** ALL lists the five bookings by `end` descending, for the booker and the owner alike. */
  lemma RepoAll(now: Time)
    ensures Query(Repo, ByBooker, 2, All, now) == [B5, B4, B1, B3, B2]
    ensures Query(Repo, ByOwner, 1, All, now) == [B5, B4, B1, B3, B2]
  {
    RepoRows();
    QueryDetermined(Repo, ByBooker, 2, All, now, [B5, B4, B1, B3, B2]);
    RepoOwnerSeesBookerView(All, now);
  }

  /** Between the end of booking 3 and the end of booking 1, PAST lists bookings 3 and 2. */
  lemma RepoBookerPast(now: Time)
    requires B3.end < now <= B1.end
    ensures Query(Repo, ByBooker, 2, Past, now) == [B3, B2]
  {
    RepoRows();
    QueryDetermined(Repo, ByBooker, 2, Past, now, [B3, B2]);
  }

  /** Between the start of booking 1 and the start of booking 4, FUTURE lists bookings 5 and 4. */
  lemma RepoBookerFuture(now: Time)
    requires B1.start <= now < B4.start
    ensures Query(Repo, ByBooker, 2, Future, now) == [B5, B4]
  {
    RepoRows();
    QueryDetermined(Repo, ByBooker, 2, Future, now, [B5, B4]);
  }

  lemma RepoBookerRejected(now: Time)
    ensures Query(Repo, ByBooker, 2, Rejected, now) == [B2]
  {
    RepoRows();
    QueryDetermined(Repo, ByBooker, 2, Rejected, now, [B2]);
  }

  /** While booking 1 runs, CURRENT lists it alone. */
  lemma RepoBookerCurrent(now: Time)
    requires B1.start <= now <= B1.end
    ensures Query(Repo, ByBooker, 2, Current, now) == [B1]
  {
    RepoRows();
    QueryDetermined(Repo, ByBooker, 2, Current, now, [B1]);
  }

  lemma RepoBookerWaiting(now: Time)
    ensures Query(Repo, ByBooker, 2, Waiting, now) == [B5]
  {
    RepoRows();
    QueryDetermined(Repo, ByBooker, 2, Waiting, now, [B5]);
  }

  /** The two dates the booker's tests ask about. */
  lemma RepoBookerTests()
    ensures Query(Repo, ByBooker, 2, Past, Stamp(2023, 5, 1, 12, 0)) == [B3, B2]
    ensures Query(Repo, ByBooker, 2, Future, Stamp(2023, 6, 1, 10, 0)) == [B5, B4]
  {
    RepoBookerPast(Stamp(2023, 5, 1, 12, 0));
    RepoBookerFuture(Stamp(2023, 6, 1, 10, 0));
  }

  // The owner's lists on the day the tests were written.

  lemma RepoOwnerCurrent()
    ensures Query(Repo, ByOwner, 1, Current, Today) == [B1]
  {
    RepoOwnerSeesBookerView(Current, Today);
    RepoBookerCurrent(Today);
  }

  lemma RepoOwnerPast()
    ensures Query(Repo, ByOwner, 1, Past, Today) == [B3, B2]
  {
    RepoOwnerSeesBookerView(Past, Today);
    RepoBookerPast(Today);
  }

  lemma RepoOwnerFuture()
    ensures Query(Repo, ByOwner, 1, Future, Today) == [B5, B4]
  {
    RepoOwnerSeesBookerView(Future, Today);
    RepoBookerFuture(Today);
  }

  lemma RepoOwnerWaiting()
    ensures Query(Repo, ByOwner, 1, Waiting, Today) == [B5]
  {
    RepoOwnerSeesBookerView(Waiting, Today);
    RepoBookerWaiting(Today);
  }

  lemma RepoOwnerRejected()
    ensures Query(Repo, ByOwner, 1, Rejected, Today) == [B2]
  {
    RepoOwnerSeesBookerView(Rejected, Today);
    RepoBookerRejected(Today);
  }

  lemma RejectedTokens(token: string)
    requires token == "REJECTED" || token == "rejected"
    ensures ParseState(token) == Some(Rejected)
  {
    ParseStateName(Rejected);
    assert StateName(Rejected) == "REJECTED";
    assert Lower(StateName(Rejected)) == "rejected";
  }

  /** The owner's REJECTED listing through the service, with the token in either case. */
  lemma RepoRejectedListing(token: string)
    requires token == "REJECTED" || token == "rejected"
    ensures ListBookings(Repo, ByOwner, 1, token, 0, 20, Today) == Ok([B2])
  {
    RejectedTokens(token);
    assert FindUser(Repo, 1) == Some(Owner);
    RepoOwnerRejected();
    assert Page([B2], 0, 20) == [B2];
  }

  /** The item's last booking has begun by the test date and its next one is still ahead. */
  lemma RepoLastNext()
    ensures LastBooking(Repo.bookings, 1, Today) == Some(B1)
    ensures NextBooking(Repo.bookings, 1, Today) == Some(B4)
  {
    RepoRows();
    var last := LastBooking(Repo.bookings, 1, Today);
    assert B1 in Repo.bookings && B4 in Repo.bookings;
    assert last.value.start >= B1.start;
    var next := NextBooking(Repo.bookings, 1, Today);
    assert next.value.start <= B4.start;
  }
}
