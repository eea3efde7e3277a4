/**
  The application-level scenario run against the full service stack: three
  users and three items registered through the services, one booking made,
  read, listed, rejected and listed again, and a comment refused.
 */
module Integration {
  import opened Wrappers
  import opened Tables
  import opened Model
  import opened BookingQueries
  import opened BookingService
  import opened UserService
  import opened ItemService
  import opened Lifecycle

  /** One day on the minute scale of `Time`. */
  const Day: int := 24 * 60

  const U1 := User(1, "email1@mail.ru", "Name1")
  const U2 := User(2, "email2@mail.ru", "Name2")
  const U3 := User(3, "email3@mail.ru", "Name3")

  const I1 := Item(1, "itemName1", "itemDescription1", true, 1, None)
  const I2 := Item(2, "itemName2", "itemDescription2", true, 1, None)
  const I3 := Item(3, "itemName3", "itemDescription3", true, 2, None)

  /** The store as users and items are added: the tables and the identity counters. */
  function Stage(users: seq<User>, items: seq<Item>): Store {
    Store(users, items, [], [], NextKeys(|users| + 1, |items| + 1, 1, 1))
  }

  /** The store once the three users and the three items exist. */
  const Setup := Stage([U1, U2, U3], [I1, I2, I3])

  /** Lookups in the set-up tables. */
  lemma SetupLookups()
    ensures FindUser(Setup, 1) == Some(U1) && FindUser(Setup, 2) == Some(U2) && FindUser(Setup, 3) == Some(U3)
    ensures FindItem(Setup, 1) == Some(I1) && FindItem(Setup, 2) == Some(I2) && FindItem(Setup, 3) == Some(I3)
  {
    assert [U1, U2, U3][1..] == [U2, U3] && [U2, U3][1..] == [U3];
    assert Find([U3], UserId, 3) == Some(U3);
    assert Find([U2, U3], UserId, 2) == Some(U2) && Find([U2, U3], UserId, 3) == Some(U3);
    assert [I1, I2, I3][1..] == [I2, I3] && [I2, I3][1..] == [I3];
    assert Find([I3], ItemId, 3) == Some(I3);
    assert Find([I2, I3], ItemId, 2) == Some(I2) && Find([I2, I3], ItemId, 3) == Some(I3);
  }

  function UserIn(u: User): UserInput {
    UserInput(Some(u.name), Some(u.email))
  }

  function ItemIn(it: Item): ItemInput {
    ItemInput(Some(it.name), Some(it.description), Some(it.available), it.request)
  }

  /** Registering the three users hands out the ids 1, 2 and 3. */
  lemma RegisterFirst()
    ensures CreateUser(EmptyStore, UserIn(U1)) == Ok(Saved(Stage([U1], []), U1))
  {
    assert !EmailTaken([], U1.email, None);
    var r := CreateUser(EmptyStore, UserIn(U1));
    assert r.Ok?;
    assert r.value.value == U1;
    assert [] + [U1] == [U1];
  }

  lemma RegisterSecond()
    ensures CreateUser(Stage([U1], []), UserIn(U2)) == Ok(Saved(Stage([U1, U2], []), U2))
  {
    assert !EmailTaken([U1], U2.email, None) by {
      assert U1.email != U2.email by { assert U1.email[5] != U2.email[5]; }
    }
    assert [U1] + [U2] == [U1, U2];
  }

  lemma RegisterThird()
    ensures CreateUser(Stage([U1, U2], []), UserIn(U3)) == Ok(Saved(Stage([U1, U2, U3], []), U3))
  {
    assert !EmailTaken([U1, U2], U3.email, None) by {
      assert U1.email != U3.email by { assert U1.email[5] != U3.email[5]; }
      assert U2.email != U3.email by { assert U2.email[5] != U3.email[5]; }
    }
    assert [U1, U2] + [U3] == [U1, U2, U3];
  }

  /** Every name and description the scenario uses is filled. */
  lemma ItemTextsFilled()
    ensures Filled(Some(I1.name)) && Filled(Some(I1.description))
    ensures Filled(Some(I2.name)) && Filled(Some(I2.description))
    ensures Filled(Some(I3.name)) && Filled(Some(I3.description))
  {
    assert !IsWhitespace(I1.name[0]) && !IsWhitespace(I1.description[0]);
    assert !IsWhitespace(I2.name[0]) && !IsWhitespace(I2.description[0]);
    assert !IsWhitespace(I3.name[0]) && !IsWhitespace(I3.description[0]);
  }

  // Users 1, 1 and 2 then create the three items, which get the ids 1, 2 and 3.

  lemma CreateFirstItem()
    ensures
      CreateItem(Stage([U1, U2, U3], []), 1, ItemIn(I1)) == Ok(Saved(Stage([U1, U2, U3], [I1]), I1))
  {
    var s := Stage([U1, U2, U3], []);
    ItemTextsFilled();
    assert FindUser(s, 1) == Some(U1);
    assert s.next.item == I1.id;
    assert s.items + [I1] == [I1];
    assert Stage([U1, U2, U3], [I1]) == s.(items := [I1], next := s.next.(item := 2));
  }

  lemma CreateSecondItem()
    ensures
      CreateItem(Stage([U1, U2, U3], [I1]), 1, ItemIn(I2)) == Ok(Saved(Stage([U1, U2, U3], [I1, I2]), I2))
  {
    var s := Stage([U1, U2, U3], [I1]);
    ItemTextsFilled();
    assert FindUser(s, 1) == Some(U1);
    assert s.next.item == I2.id;
    assert s.items + [I2] == [I1, I2];
    assert Stage([U1, U2, U3], [I1, I2]) == s.(items := [I1, I2], next := s.next.(item := 3));
  }

  lemma CreateThirdItem()
    ensures
      CreateItem(Stage([U1, U2, U3], [I1, I2]), 2, ItemIn(I3)) == Ok(Saved(Setup, I3))
  {
    var s := Stage([U1, U2, U3], [I1, I2]);
    ItemTextsFilled();
    assert FindUser(s, 2) == Some(U2) by {
      assert [U1, U2, U3][1..] == [U2, U3];
      assert Find([U2, U3], UserId, 2) == Some(U2);
    }
    assert s.next.item == I3.id;
    assert s.items + [I3] == [I1, I2, I3];
    assert Setup == s.(items := [I1, I2, I3], next := s.next.(item := 4));
  }

  /** The set-up items table: three rows under distinct keys. */
  lemma SetupItems()
    ensures forall it | it in Setup.items :: it == I1 || it == I2 || it == I3
    ensures UniqueKeys(Setup.items, ItemId)
  {
  }

  /** The item user 3 creates for a request and deletes again. */
  const I4 := Item(4, "itemName4", "itemDescription4", true, 3, Some(1))

  const WithFourth := Setup.(items := [I1, I2, I3, I4], next := Setup.next.(item := 5))

  /** Item 4 gets the next key after the three set-up items. */
  lemma CreateFourthItem()
    ensures CreateItem(Setup, 3, ItemIn(I4)) == Ok(Saved(WithFourth, I4))
  {
    assert FindUser(Setup, 3) == Some(U3) by {
      assert [U1, U2, U3][1..] == [U2, U3] && [U2, U3][1..] == [U3];
      assert Find([U3], UserId, 3) == Some(U3);
      assert Find([U2, U3], UserId, 3) == Some(U3);
    }
    assert !IsWhitespace(I4.name[0]) && !IsWhitespace(I4.description[0]);
    assert Setup.items + [I4] == [I1, I2, I3, I4];
  }

  /** Deleting item 4 leaves its key spent: the item created next gets key 5. */
  lemma FourthKeySpent()
    ensures RemoveItem(WithFourth, 3, 4).Ok?
    ensures CreateItem(RemoveItem(WithFourth, 3, 4).value, 3, ItemIn(I4)).Ok?
    ensures CreateItem(RemoveItem(WithFourth, 3, 4).value, 3, ItemIn(I4)).value.value.id == 5
  {
    assert FindItem(WithFourth, 4) == Some(I4) by {
      assert [I1, I2, I3, I4][1..] == [I2, I3, I4] && [I2, I3, I4][1..] == [I3, I4] && [I3, I4][1..] == [I4];
      assert Find([I4], ItemId, 4) == Some(I4);
      assert Find([I3, I4], ItemId, 4) == Some(I4);
      assert Find([I2, I3, I4], ItemId, 4) == Some(I4);
    }
    var t := RemoveItem(WithFourth, 3, 4).value;
    assert FindUser(t, 3) == Some(U3) by {
      assert t.users == Setup.users;
      assert [U1, U2, U3][1..] == [U2, U3] && [U2, U3][1..] == [U3];
      assert Find([U3], UserId, 3) == Some(U3);
      assert Find([U2, U3], UserId, 3) == Some(U3);
    }
    assert !IsWhitespace(I4.name[0]) && !IsWhitespace(I4.description[0]);
  }

  /** Each user's item list: two items, one item and none. */
  lemma ListFirstUserItems()
    ensures UserItems(Setup, 1, 0, 20) == Ok([I1, I2])
  {
    SetupItems();
    SelectPageDetermined(Setup.items, OwnedBy(1), ItemId, 20, [I1, I2]);
  }

  lemma ListSecondUserItems()
    ensures UserItems(Setup, 2, 0, 20) == Ok([I3])
  {
    SetupItems();
    SelectPageDetermined(Setup.items, OwnedBy(2), ItemId, 20, [I3]);
  }

  lemma ListThirdUserItems()
    ensures UserItems(Setup, 3, 0, 20) == Ok([])
  {
    SetupItems();
    SelectPageDetermined(Setup.items, OwnedBy(3), ItemId, 20, []);
  }

  /** User 1 asks for item 3 from five to fifteen days ahead. */
  function Request(now: Time): BookingRequest {
    BookingRequest(3, Some(now + 5 * Day), Some(now + 15 * Day))
  }

  function Made(now: Time): Booking {
    Booking(1, now + 5 * Day, now + 15 * Day, 3, 1, WAITING)
  }

  function Booked(now: Time): Store {
    Setup.(bookings := [Made(now)], next := Setup.next.(booking := 2))
  }

  function Decided(now: Time): Store {
    Booked(now).(bookings := [Made(now).(status := REJECTED)])
  }

  lemma BookItem(now: Time)
    ensures CreateBooking(Setup, 1, Request(now), now) == Ok(Saved(Booked(now), Made(now)))
  {
    SetupLookups();
    assert ValidPeriod(Request(now), now);
    assert Setup.bookings + [Made(now)] == [Made(now)];
  }

  /** The owner of item 3 reads the booking. */
  lemma OwnerReadsBooking(now: Time)
    ensures FindBookingById(Booked(now), 2, 1) == Ok(Made(now))
  {
    BookItem(now);
    SetupLookups();
    assert Numbered(Setup);
    CreateThenFind(Setup, 1, Request(now), now, 2);
  }

  lemma QueryBooked(now: Time)
    ensures Query(Booked(now), ByBooker, 1, All, now) == [Made(now)]
  {
    assert forall b | b in Booked(now).bookings :: b == Made(now);
    QueryDetermined(Booked(now), ByBooker, 1, All, now, [Made(now)]);
  }

  /** The booker's ALL list holds the booking alone. */
  lemma ListBooked(now: Time)
    ensures ListBookings(Booked(now), ByBooker, 1, "ALL", 0, 20, now) == Ok([Made(now)])
  {
    SetupLookups();
    ParseStateName(All);
    assert StateName(All) == "ALL";
    QueryBooked(now);
    assert Page([Made(now)], 0, 20) == [Made(now)];
  }

  /** The owner rejects it. */
  lemma RejectBooking(now: Time)
    ensures ApproveBooking(Booked(now), 2, 1, false) == Ok(Saved(Decided(now), Made(now).(status := REJECTED)))
  {
    var rejected := Made(now).(status := REJECTED);
    assert FindItem(Booked(now), 3) == Some(I3) by {
      assert [I1, I2, I3][1..] == [I2, I3] && [I2, I3][1..] == [I3];
      assert Find([I3], ItemId, 3) == Some(I3);
      assert Find([I2, I3], ItemId, 3) == Some(I3);
    }
    assert FindBooking(Booked(now), 1) == Some(Made(now));
    assert Replace([Made(now)], BookingId, rejected) == [rejected] by {
      assert [Made(now)][1..] == [];
    }
  }

  lemma QueryDecided(now: Time)
    ensures Query(Decided(now), ByOwner, 2, Rejected, now) == [Made(now).(status := REJECTED)]
  {
    var rejected := Made(now).(status := REJECTED);
    assert FindItem(Decided(now), 3) == Some(I3) by {
      assert [I1, I2, I3][1..] == [I2, I3] && [I2, I3][1..] == [I3];
      assert Find([I3], ItemId, 3) == Some(I3);
      assert Find([I2, I3], ItemId, 3) == Some(I3);
    }
    assert Selected(Decided(now), ByOwner, 2, Rejected, now, rejected);
    assert forall b | b in Decided(now).bookings :: b == rejected;
    QueryDetermined(Decided(now), ByOwner, 2, Rejected, now, [rejected]);
  }

  /** The owner's REJECTED list then holds the rejected booking alone. */
  lemma ListRejected(now: Time)
    ensures ListBookings(Decided(now), ByOwner, 2, "REJECTED", 0, 20, now) == Ok([Made(now).(status := REJECTED)])
  {
    SetupLookups();
    RejectedToken();
    QueryDecided(now);
    assert Page([Made(now).(status := REJECTED)], 0, 20) == [Made(now).(status := REJECTED)];
  }

  /** User 3 never booked item 1, so the comment is refused. */
  lemma CommentRefused(now: Time)
    ensures CreateComment(Decided(now), 3, 1, "comment1", now) == Err(Validation)
  {
    assert !Blank("comment1") by {
      assert !IsWhitespace("comment1"[0]);
    }
    SetupLookups();
  }
}
