/**
  The entities of the ShareIt lending server and the store that holds them.
  Entities refer to each other by id (a booking names its item and booker, an
  item names its owner), and the store is one table per entity.
 */
module Model {
  import opened Wrappers
  import opened Tables

  /** A point in time; `LocalDateTime` values become integers that keep their order. */
  type Time = int

  /** Booking status, named as in the Java enum. */
  datatype Status = WAITING | APPROVED | REJECTED | CANCELED

  datatype User = User(id: int, email: string, name: string)

  datatype Item = Item(
    id: int,
    name: string,
    description: string,
    available: bool,
    owner: int,
    request: Option<int>)

  datatype Booking = Booking(
    id: int,
    start: Time,
    end: Time,
    item: int,
    booker: int,
    status: Status)

  datatype Comment = Comment(id: int, text: string, item: int, author: int, created: Time)

  /** What a saved comment is returned as: the author is shown by name. */
  datatype CommentView = CommentView(id: int, text: string, authorName: string, created: Time)

  /**
    The value each table's identity column hands out next
    (`GenerationType.IDENTITY`). A successful insert takes the value and moves
    the counter on by one; nothing moves it back.
   */
  datatype NextKeys = NextKeys(user: int, item: int, booking: int, comment: int)

  /** The relational store: one table per entity, rows in insertion order, and the identity counters. */
  datatype Store = Store(
    users: seq<User>,
    items: seq<Item>,
    bookings: seq<Booking>,
    comments: seq<Comment>,
    next: NextKeys)

  /** A fresh schema: empty tables whose identity columns start at 1. */
  const EmptyStore := Store([], [], [], [], NextKeys(1, 1, 1, 1))

  /** The exceptions the services throw, one constructor per exception class. */
  datatype Error =
    | Validation          // ValidationException
    | UserNotFound        // UserNotFoundException
    | ItemNotFound        // ItemNotFoundException
    | BookingNotFound     // BookingNotFoundException
    | ItemNotAvailable    // ItemNotAvailableException
    | AccessError         // AccessErrorException
    | BookingApprove      // BookingApproveException
    | UnsupportedStatus   // UnsupportedStatusException
    | ResponseStatus      // ResponseStatusException (bad id, save refused by the store)
    | IllegalArgument     // IllegalArgumentException (deleting a missing row)

  /** The store after a successful operation together with the value it returns. */
  datatype Saved<T> = Saved(store: Store, value: T)

  function UserId(u: User): int { u.id }
  function ItemId(i: Item): int { i.id }
  function BookingId(b: Booking): int { b.id }
  function CommentId(c: Comment): int { c.id }
  function Email(u: User): string { u.email }

  function FindUser(s: Store, id: int): Option<User> { Find(s.users, UserId, id) }
  function FindItem(s: Store, id: int): Option<Item> { Find(s.items, ItemId, id) }
  function FindBooking(s: Store, id: int): Option<Booking> { Find(s.bookings, BookingId, id) }

  /** Java's `Character.isWhitespace`. */
  predicate IsWhitespace(c: char) {
    var n := c as int;
    || n == 0x20
    || 0x09 <= n <= 0x0D
    || 0x1C <= n <= 0x1F
    || n == 0x1680
    || 0x2000 <= n <= 0x2006
    || 0x2008 <= n <= 0x200A
    || n == 0x2028 || n == 0x2029 || n == 0x205F || n == 0x3000
  }

  /** Java's `String.isBlank`: empty or whitespace only. */
  predicate Blank(t: string) {
    forall i | 0 <= i < |t| :: IsWhitespace(t[i])
  }

  /** No two users share an email (the unique column of the users table). */
  ghost predicate UniqueEmails(users: seq<User>) {
    UniqueKeys(users, Email)
  }

  /** Every stored key was handed out by its table's identity column, so it lies below the counter. */
  ghost predicate Numbered(s: Store) {
    && KeysBelow(s.users, UserId, s.next.user)
    && KeysBelow(s.items, ItemId, s.next.item)
    && KeysBelow(s.bookings, BookingId, s.next.booking)
    && KeysBelow(s.comments, CommentId, s.next.comment)
  }

  /**
    Every reference between tables names a key its identity column has already
    handed out. The row may since have been deleted, but a key not yet handed
    out is never referred to.
   */
  ghost predicate IssuedReferences(s: Store) {
    && (forall it | it in s.items :: it.owner < s.next.user)
    && (forall b | b in s.bookings :: b.item < s.next.item && b.booker < s.next.user)
    && (forall c | c in s.comments :: c.item < s.next.item && c.author < s.next.user)
  }

  /**
    The constraints of the schema: a primary key per table, the unique email
    column, and identity counters above every key handed out. A reference to a
    deleted row is not excluded: there are no foreign keys.
   */
  ghost predicate Valid(s: Store) {
    && UniqueKeys(s.users, UserId)
    && UniqueKeys(s.items, ItemId)
    && UniqueKeys(s.bookings, BookingId)
    && UniqueKeys(s.comments, CommentId)
    && UniqueEmails(s.users)
    && Numbered(s)
    && IssuedReferences(s)
  }
}
