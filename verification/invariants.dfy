/**
  The store's constraints hold after every operation that succeeds: each table
  keeps unique primary keys, the users table keeps unique emails, every key
  stays below its table's identity counter, and every reference names a key
  already handed out.
 */
module StoreInvariants {
  import opened Wrappers
  import opened Tables
  import opened Model
  import opened BookingService
  import opened UserService
  import opened ItemService

  lemma CreateUserKeepsValid(s: Store, input: UserInput)
    requires Valid(s)
    requires CreateUser(s, input).Ok?
    ensures Valid(CreateUser(s, input).value.store)
  {
    var u := CreateUser(s, input).value.value;
    UniqueAppend(s.users, UserId, u);
    assert forall x | x in s.users :: x.email != u.email;
    UniqueAppend(s.users, Email, u);
  }

  /**
    Replacing the row with the key of `v` keeps emails unique when no other
    user holds the email of `v`.
   */
  lemma EmailsAfterReplace(users: seq<User>, v: User)
    requires UniqueKeys(users, UserId) && UniqueEmails(users)
    requires !EmailTaken(users, v.email, Some(v.id))
    ensures UniqueEmails(Replace(users, UserId, v))
  {
    var r := Replace(users, UserId, v);
    forall i, j | 0 <= i < j < |r|
      ensures r[i].email != r[j].email
    {
      if users[i].id == v.id {
        assert users[j].id != v.id;
        assert users[j] in users;
      } else if users[j].id == v.id {
        assert users[i] in users;
      }
    }
  }

  lemma ChangeUserKeepsValid(s: Store, userId: int, patch: UserInput)
    requires Valid(s)
    requires ChangeUser(s, userId, patch).Ok?
    ensures Valid(ChangeUser(s, userId, patch).value.store)
  {
    var u := ChangeUser(s, userId, patch).value.value;
    UniqueReplace(s.users, UserId, u);
    EmailsAfterReplace(s.users, u);
  }

  lemma RemoveUserKeepsValid(s: Store, userId: int)
    requires Valid(s)
    requires RemoveUser(s, userId).Ok?
    ensures Valid(RemoveUser(s, userId).value)
  {
    UniqueRemove(s.users, UserId, userId, UserId);
    UniqueRemove(s.users, UserId, userId, Email);
  }

  lemma CreateItemKeepsValid(s: Store, userId: int, input: ItemInput)
    requires Valid(s)
    requires CreateItem(s, userId, input).Ok?
    ensures Valid(CreateItem(s, userId, input).value.store)
  {
    UniqueAppend(s.items, ItemId, CreateItem(s, userId, input).value.value);
  }

  lemma ChangeItemKeepsValid(s: Store, userId: int, itemId: int, patch: ItemInput)
    requires Valid(s)
    requires ChangeItem(s, userId, itemId, patch).Ok?
    ensures Valid(ChangeItem(s, userId, itemId, patch).value.store)
  {
    UniqueReplace(s.items, ItemId, ChangeItem(s, userId, itemId, patch).value.value);
  }

  lemma RemoveItemKeepsValid(s: Store, userId: int, itemId: int)
    requires Valid(s)
    requires RemoveItem(s, userId, itemId).Ok?
    ensures Valid(RemoveItem(s, userId, itemId).value)
  {
    UniqueRemove(s.items, ItemId, itemId, ItemId);
  }

  lemma CreateBookingKeepsValid(s: Store, userId: int, req: BookingRequest, now: Time)
    requires Valid(s)
    requires CreateBooking(s, userId, req, now).Ok?
    ensures Valid(CreateBooking(s, userId, req, now).value.store)
  {
    UniqueAppend(s.bookings, BookingId, CreateBooking(s, userId, req, now).value.value);
  }

  lemma ApproveBookingKeepsValid(s: Store, userId: int, bookingId: int, approved: bool)
    requires Valid(s)
    requires ApproveBooking(s, userId, bookingId, approved).Ok?
    ensures Valid(ApproveBooking(s, userId, bookingId, approved).value.store)
  {
    UniqueReplace(s.bookings, BookingId, ApproveBooking(s, userId, bookingId, approved).value.value);
  }

  lemma CreateCommentKeepsValid(s: Store, userId: int, itemId: int, text: string, now: Time)
    requires Valid(s)
    requires CreateComment(s, userId, itemId, text, now).Ok?
    ensures Valid(CreateComment(s, userId, itemId, text, now).value.store)
  {
    var v := CreateComment(s, userId, itemId, text, now).value.value;
    UniqueAppend(s.comments, CommentId, Comment(v.id, text, itemId, userId, now));
  }
}
