/**
  The item service: creating an item, the owner's partial update, lookup,
  the owner's item list and search (both paged), deletion, and the comment
  guard that lets only past bookers comment.
 */
module ItemService {
  import opened Wrappers
  import opened Tables
  import opened Model

  /** The item fields a request carries; absent fields are Java nulls. */
  datatype ItemInput = ItemInput(
    name: Option<string>,
    description: Option<string>,
    available: Option<bool>,
    requestId: Option<int>)

  /** A text field that is present and not blank. */
  predicate Filled(t: Option<string>) {
    t.Some? && !Blank(t.value)
  }

  /** The paging parameters every paged listing accepts. */
  predicate ValidPaging(from: int, size: int) {
    from >= 0 && size > 0
  }

  /**
    Item creation. Checks, in order: the user id is not negative, name and
    description are filled and availability is given, the owner exists.
   */
  function CreateItem(s: Store, userId: int, input: ItemInput): (r: Result<Saved<Item>, Error>)
    ensures userId < 0 ==> r == Err(ResponseStatus)
    ensures userId >= 0 && !(Filled(input.name) && Filled(input.description) && input.available.Some?)
      ==> r == Err(Validation)
    ensures userId >= 0 && Filled(input.name) && Filled(input.description) && input.available.Some? ==>
      (r.Ok? <==> FindUser(s, userId).Some?)
    ensures userId >= 0 && Filled(input.name) && Filled(input.description) && input.available.Some? ==>
      (FindUser(s, userId).None? ==> r == Err(UserNotFound))
    ensures r.Err? ==> r.error in {ResponseStatus, Validation, UserNotFound}
    ensures r.Ok? ==>
      var it := r.value.value;
      && input.name == Some(it.name)
      && input.description == Some(it.description)
      && input.available == Some(it.available)
      && it.owner == userId
      && it.request == input.requestId
      && it.id == s.next.item
      && (Numbered(s) ==> FindItem(s, it.id).None?)
      && r.value.store == s.(items := s.items + [it], next := s.next.(item := it.id + 1))
  {
    if userId < 0 then Err(ResponseStatus)
    else if !(Filled(input.name) && Filled(input.description) && input.available.Some?) then Err(Validation)
    else if FindUser(s, userId).None? then Err(UserNotFound)
    else
      var it := Item(s.next.item, input.name.value, input.description.value,
                     input.available.value, userId, input.requestId);
      Ok(Saved(s.(items := s.items + [it], next := s.next.(item := it.id + 1)), it))
  }

  /** A patch replaces exactly the name, description and availability it supplies. */
  function MergeItem(it: Item, patch: ItemInput): Item {
    it.(name := patch.name.GetOr(it.name),
        description := patch.description.GetOr(it.description),
        available := patch.available.GetOr(it.available))
  }

  /**
    The owner's partial update. A negative user id is refused first; a missing
    item and another user's item both read as ItemNotFound.
   */
  function ChangeItem(s: Store, userId: int, itemId: int, patch: ItemInput): (r: Result<Saved<Item>, Error>)
    ensures userId < 0 ==> r == Err(ResponseStatus)
    ensures userId >= 0 ==>
      (r.Ok? <==> FindItem(s, itemId).Some? && FindItem(s, itemId).value.owner == userId)
    ensures userId >= 0 && r.Err? ==> r.error == ItemNotFound
    ensures r.Ok? ==>
      && r.value.value == MergeItem(FindItem(s, itemId).value, patch)
      && FindItem(r.value.store, itemId) == Some(r.value.value)
      && r.value.store == s.(items := Replace(s.items, ItemId, r.value.value))
  {
    if userId < 0 then Err(ResponseStatus)
    else
      var found := FindItem(s, itemId);
      if found.None? || found.value.owner != userId then Err(ItemNotFound)
      else
        var merged := MergeItem(found.value, patch);
        FindReplace(s.items, ItemId, merged, itemId);
        Ok(Saved(s.(items := Replace(s.items, ItemId, merged)), merged))
  }

  /** Item lookup on behalf of an existing user. */
  function FindItemById(s: Store, userId: int, itemId: int): (r: Result<Item, Error>)
    ensures FindUser(s, userId).None? ==> r == Err(UserNotFound)
    ensures FindUser(s, userId).Some? && FindItem(s, itemId).None? ==> r == Err(ItemNotFound)
    ensures r.Ok? ==> r.value in s.items && r.value.id == itemId
    ensures FindUser(s, userId).Some? && FindItem(s, itemId).Some? ==> r.Ok?
  {
    if FindUser(s, userId).None? then Err(UserNotFound)
    else
      var it := FindItem(s, itemId);
      if it.None? then Err(ItemNotFound) else Ok(it.value)
  }

  /** Whether the user owns the item. */
  function OwnedBy(userId: int): Item -> bool {
    (it: Item) => it.owner == userId
  }

  /** One page of the items a user owns, by id ascending. */
  function UserItems(s: Store, userId: int, from: int, size: int): (r: Result<seq<Item>, Error>)
    ensures r.Err? <==> !ValidPaging(from, size)
    ensures r.Err? ==> r.error == Validation
    ensures r.Ok? ==> |r.value| <= size
    ensures r.Ok? ==> forall it | it in r.value :: it in s.items && it.owner == userId
    ensures r.Ok? && from == 0 && |s.items| <= size ==> forall it | it in s.items && it.owner == userId :: it in r.value
    ensures r.Ok? ==> SortedBy(r.value, ItemId)
    ensures r.Ok? ==>
      var owned := Filter(s.items, OwnedBy(userId));
      |r.value| == (if from < |owned| then Min(size, |owned| - from) else 0)
  {
    if !ValidPaging(from, size) then Err(Validation)
    else
      Ok(SelectPage(s.items, OwnedBy(userId), ItemId, from, size))
  }

  /**
    Every page of a user's items is the matching window of the one listing of
    exactly their items in ascending key order.
   */
  lemma UserItemsWindow(s: Store, userId: int, from: int, size: int, listing: seq<Item>)
    requires UniqueKeys(s.items, ItemId)
    requires ValidPaging(from, size)
    requires StrictlySortedBy(listing, ItemId)
    requires forall it | it in listing :: it in s.items && it.owner == userId
    requires forall it | it in s.items && it.owner == userId :: it in listing
    ensures UserItems(s, userId, from, size) == Ok(Page(listing, from, size))
  {
    SelectPageWindow(s.items, OwnedBy(userId), ItemId, from, size, listing);
  }

  /**
    One page of the search results, by id ascending. The text match is the
    repository's query, which is not part of this model: it is passed in.
   */
  function SearchItems(s: Store, matches: Item -> bool, from: int, size: int): (r: Result<seq<Item>, Error>)
    ensures r.Err? <==> !ValidPaging(from, size)
    ensures r.Err? ==> r.error == Validation
    ensures r.Ok? ==> |r.value| <= size
    ensures r.Ok? ==> forall it | it in r.value :: it in s.items && matches(it)
    ensures r.Ok? && from == 0 && |s.items| <= size ==> forall it | it in s.items && matches(it) :: it in r.value
    ensures r.Ok? ==> SortedBy(r.value, ItemId)
    ensures r.Ok? ==>
      var found := Filter(s.items, matches);
      |r.value| == (if from < |found| then Min(size, |found| - from) else 0)
  {
    if !ValidPaging(from, size) then Err(Validation)
    else
      Ok(SelectPage(s.items, matches, ItemId, from, size))
  }

  /** Every page of a search is the matching window of the key-ordered listing of exactly the matches. */
  lemma SearchItemsWindow(s: Store, matches: Item -> bool, from: int, size: int, listing: seq<Item>)
    requires UniqueKeys(s.items, ItemId)
    requires ValidPaging(from, size)
    requires StrictlySortedBy(listing, ItemId)
    requires forall it | it in listing :: it in s.items && matches(it)
    requires forall it | it in s.items && matches(it) :: it in listing
    ensures SearchItems(s, matches, from, size) == Ok(Page(listing, from, size))
  {
    SelectPageWindow(s.items, matches, ItemId, from, size, listing);
  }

  /** Deletion by id; deleting a missing item is refused. */
  function RemoveItem(s: Store, userId: int, itemId: int): (r: Result<Store, Error>)
    ensures FindItem(s, itemId).None? <==> r == Err(IllegalArgument)
    ensures r.Ok? ==>
      && FindItem(r.value, itemId).None?
      && (forall other | other != itemId :: FindItem(r.value, other) == FindItem(s, other))
      && r.value.users == s.users && r.value.bookings == s.bookings && r.value.comments == s.comments
      && r.value.next == s.next
  {
    if FindItem(s, itemId).None? then Err(IllegalArgument)
    else
      var t := s.(items := Remove(s.items, ItemId, itemId));
      FindRemove(s.items, ItemId, itemId, itemId);
      assert forall other | other != itemId :: FindItem(t, other) == FindItem(s, other) by {
        forall other | other != itemId
          ensures FindItem(t, other) == FindItem(s, other)
        {
          FindRemove(s.items, ItemId, itemId, other);
        }
      }
      Ok(t)
  }

  /** The user has booked the item for a period that ended before `now`. */
  predicate FinishedBooking(s: Store, userId: int, itemId: int, now: Time) {
    exists b | b in s.bookings :: b.booker == userId && b.item == itemId && b.end < now
  }

  /**
    Commenting on an item. Checks, in order: the text is not blank, the author
    and the item exist, the author has a finished booking of the item.
   */
  function CreateComment(s: Store, userId: int, itemId: int, text: string, now: Time)
    : (r: Result<Saved<CommentView>, Error>)
    ensures Blank(text) ==> r == Err(Validation)
    ensures !Blank(text) && (FindUser(s, userId).None? || FindItem(s, itemId).None?) ==> r == Err(UserNotFound)
    ensures r.Ok? <==>
      !Blank(text) && FindUser(s, userId).Some? && FindItem(s, itemId).Some? && FinishedBooking(s, userId, itemId, now)
    ensures !Blank(text) && FindUser(s, userId).Some? && FindItem(s, itemId).Some? ==>
      (!FinishedBooking(s, userId, itemId, now) ==> r == Err(Validation))
    ensures r.Err? ==> r.error in {Validation, UserNotFound}
    ensures r.Ok? ==>
      var v := r.value.value;
      var c := Comment(v.id, text, itemId, userId, now);
      && v.text == text
      && v.authorName == FindUser(s, userId).value.name
      && v.created == now
      && v.id == s.next.comment
      && (Numbered(s) ==> Find(s.comments, CommentId, v.id).None?)
      && r.value.store == s.(comments := s.comments + [c], next := s.next.(comment := v.id + 1))
  {
    if Blank(text) then Err(Validation)
    else
      var author := FindUser(s, userId);
      if author.None? || FindItem(s, itemId).None? then Err(UserNotFound)
      else if !FinishedBooking(s, userId, itemId, now) then Err(Validation)
      else
        var c := Comment(s.next.comment, text, itemId, userId, now);
        Ok(Saved(s.(comments := s.comments + [c], next := s.next.(comment := c.id + 1)),
                 CommentView(c.id, text, author.value.name, now)))
  }

  // Properties of the partial-update merge.

  /** Applying the same patch twice is the same as applying it once. */
  lemma MergeItemIdempotent(it: Item, patch: ItemInput)
    ensures MergeItem(MergeItem(it, patch), patch) == MergeItem(it, patch)
  {
  }

  /**
    A field changes only if the patch supplies it, and then takes the supplied
    value; id, owner and request never change.
   */
  lemma MergeItemFieldwise(it: Item, patch: ItemInput)
    ensures MergeItem(it, patch).id == it.id
    ensures MergeItem(it, patch).owner == it.owner
    ensures MergeItem(it, patch).request == it.request
    ensures patch.name.Some? ==> MergeItem(it, patch).name == patch.name.value
    ensures patch.name.None? ==> MergeItem(it, patch).name == it.name
    ensures patch.description.Some? ==> MergeItem(it, patch).description == patch.description.value
    ensures patch.description.None? ==> MergeItem(it, patch).description == it.description
    ensures patch.available.Some? ==> MergeItem(it, patch).available == patch.available.value
    ensures patch.available.None? ==> MergeItem(it, patch).available == it.available
  {
  }
}
