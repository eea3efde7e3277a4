/**
  The booking repository's queries: the state filters a listing may ask for,
  the booker- and owner-keyed selections ordered by `end` descending, and the
  last and next booking of an item.
 */
module BookingQueries {
  import opened Wrappers
  import opened Tables
  import opened Model

  /** The `state` parameter of a booking listing. */
  datatype State = All | Current | Past | Future | Waiting | Rejected

  /** The token that selects each state. */
  function StateName(st: State): string {
    match st
    case All => "ALL"
    case Current => "CURRENT"
    case Past => "PAST"
    case Future => "FUTURE"
    case Waiting => "WAITING"
    case Rejected => "REJECTED"
  }

  function UpperAscii(c: char): char {
    if 'a' <= c <= 'z' then (c as int - 32) as char else c
  }

  function Upper(t: string): (r: string)
    ensures |r| == |t|
    ensures forall i | 0 <= i < |t| :: r[i] == UpperAscii(t[i])
  {
    if |t| == 0 then [] else [UpperAscii(t[0])] + Upper(t[1..])
  }

  /** Reads a state token, ignoring the case of its letters. */
  function ParseState(token: string): (r: Option<State>)
    ensures r.Some? ==> Upper(token) == StateName(r.value)
    ensures r.None? <==> (forall st: State :: Upper(token) != StateName(st))
  {
    var t := Upper(token);
    if t == "ALL" then Some(All)
    else if t == "CURRENT" then Some(Current)
    else if t == "PAST" then Some(Past)
    else if t == "FUTURE" then Some(Future)
    else if t == "WAITING" then Some(Waiting)
    else if t == "REJECTED" then Some(Rejected)
    else None
  }

  /** What each state selects, judged at time `now`. */
  predicate Matches(b: Booking, st: State, now: Time) {
    match st
    case All => true
    case Current => b.start <= now <= b.end
    case Past => b.end < now
    case Future => now < b.start
    case Waiting => b.status == WAITING
    case Rejected => b.status == REJECTED
  }

  /** Whose bookings a listing shows: those a user made, or those of the items a user owns. */
  datatype Key = ByBooker | ByOwner

  predicate KeyedTo(s: Store, b: Booking, key: Key, userId: int) {
    match key
    case ByBooker => b.booker == userId
    case ByOwner =>
      var item := FindItem(s, b.item);
      item.Some? && item.value.owner == userId
  }

  /** Sort key placing later-ending bookings first. */
  function EndDesc(b: Booking): int { -b.end }

  ghost predicate EndDescending(bs: seq<Booking>) {
    forall i, j | 0 <= i < j < |bs| :: bs[i].end >= bs[j].end
  }

  /** Whether a listing keyed by `key` for `userId` in state `st` shows `b`. */
  predicate Selected(s: Store, key: Key, userId: int, st: State, now: Time, b: Booking) {
    KeyedTo(s, b, key, userId) && Matches(b, st, now)
  }

  function Selector(s: Store, key: Key, userId: int, st: State, now: Time): Booking -> bool {
    b => Selected(s, key, userId, st, now, b)
  }

  /** The bookings a user sees in one state, latest `end` first. */
  function Query(s: Store, key: Key, userId: int, st: State, now: Time): (r: seq<Booking>)
    ensures forall b | b in r :: b in s.bookings && Selected(s, key, userId, st, now, b)
    ensures forall b | b in s.bookings && Selected(s, key, userId, st, now, b) :: b in r
    ensures multiset(r) <= multiset(s.bookings)
    ensures EndDescending(r)
  {
    var selected := Filter(s.bookings, Selector(s, key, userId, st, now));
    FilterMultiset(s.bookings, Selector(s, key, userId, st, now));
    SortByEnd(selected);
    SortBy(selected, EndDesc)
  }

  /** Sorting by `EndDesc` orders by `end` descending and keeps exactly the same bookings. */
  lemma SortByEnd(bs: seq<Booking>)
    ensures EndDescending(SortBy(bs, EndDesc))
    ensures multiset(SortBy(bs, EndDesc)) == multiset(bs)
    ensures forall b :: b in SortBy(bs, EndDesc) <==> b in bs
  {
    var r := SortBy(bs, EndDesc);
    assert forall b | b in r :: b in multiset(bs);
    assert forall b | b in bs :: b in multiset(r);
    forall i, j | 0 <= i < j < |r|
      ensures r[i].end >= r[j].end
    {
      assert EndDesc(r[i]) <= EndDesc(r[j]);
    }
  }

  /**
    Query is determined by what it selects: when the selected bookings end at
    distinct moments, the one listing of exactly them, latest `end` first, is
    the query's result.
   */
  lemma QueryDetermined(s: Store, key: Key, userId: int, st: State, now: Time, listing: seq<Booking>)
    requires UniqueKeys(s.bookings, BookingId)
    requires forall i, j | 0 <= i < j < |listing| :: listing[i].end > listing[j].end
    requires forall b | b in listing :: b in s.bookings && Selected(s, key, userId, st, now, b)
    requires forall b | b in s.bookings && Selected(s, key, userId, st, now, b) :: b in listing
    ensures Query(s, key, userId, st, now) == listing
  {
    SortedSelection(s.bookings, Selector(s, key, userId, st, now), BookingId, EndDesc, listing);
  }

  /** The latest-starting booking of an item that has already started at `now`. */
  function LastBooking(bookings: seq<Booking>, itemId: int, now: Time): (r: Option<Booking>)
    ensures r.Some? ==> r.value in bookings && r.value.item == itemId && r.value.start <= now
    ensures r.Some? ==> forall b | b in bookings && b.item == itemId && b.start <= now :: b.start <= r.value.start
    ensures r.None? <==> (forall b | b in bookings && b.item == itemId :: now < b.start)
  {
    if |bookings| == 0 then None
    else
      var b := bookings[0];
      var rest := LastBooking(bookings[1..], itemId, now);
      if b.item == itemId && b.start <= now && (rest.None? || rest.value.start <= b.start) then Some(b)
      else rest
  }

  /** The earliest-starting booking of an item that starts after `now`. */
  function NextBooking(bookings: seq<Booking>, itemId: int, now: Time): (r: Option<Booking>)
    ensures r.Some? ==> r.value in bookings && r.value.item == itemId && now < r.value.start
    ensures r.Some? ==> forall b | b in bookings && b.item == itemId && now < b.start :: r.value.start <= b.start
    ensures r.None? <==> (forall b | b in bookings && b.item == itemId :: b.start <= now)
  {
    if |bookings| == 0 then None
    else
      var b := bookings[0];
      var rest := NextBooking(bookings[1..], itemId, now);
      if b.item == itemId && now < b.start && (rest.None? || b.start <= rest.value.start) then Some(b)
      else rest
  }

  /** Every state token is read back as the state it names, in upper or lower case. */
  lemma ParseStateName(st: State)
    ensures ParseState(StateName(st)) == Some(st)
    ensures ParseState(Lower(StateName(st))) == Some(st)
  {
    UpperOfName(st);
    UpperLowerName(st);
  }

  function LowerAscii(c: char): char {
    if 'A' <= c <= 'Z' then (c as int + 32) as char else c
  }

  function Lower(t: string): (r: string)
    ensures |r| == |t|
    ensures forall i | 0 <= i < |t| :: r[i] == LowerAscii(t[i])
  {
    if |t| == 0 then [] else [LowerAscii(t[0])] + Lower(t[1..])
  }

  lemma UpperOfName(st: State)
    ensures Upper(StateName(st)) == StateName(st)
  {
    var n := StateName(st);
    assert forall i | 0 <= i < |n| :: 'A' <= n[i] <= 'Z';
  }

  lemma UpperLowerName(st: State)
    ensures Upper(Lower(StateName(st))) == StateName(st)
  {
    var n := StateName(st);
    assert forall i | 0 <= i < |n| :: 'A' <= n[i] <= 'Z';
  }
}
