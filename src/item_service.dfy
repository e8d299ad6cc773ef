/** `ItemServiceImp` (server): the owner's item listing with its last and
    next bookings and its comments, the comment guard chain, and the item
    lookup, search, update and delete guards, over the JPA tables of items,
    bookings and comments. */
module ItemService {
  import opened Shared
  import opened Text
  import opened Seqs
  import opened Paging
  import opened Domain
  import opened BookingQueries

  /** `BookingShortDto`. */
  datatype BookingShort = BookingShort(id: Option<int>, bookerId: Option<int>, start: int, end: int)

  /** `ItemDto` / `ItemOwnerDto`: the item with its last and next bookings and
      its comments. */
  datatype ItemView = ItemView(item: Item, lastBooking: Option<BookingShort>, nextBooking: Option<BookingShort>,
                               comments: seq<Comment>)

  function Short(b: Booking): BookingShort {
    BookingShort(b.id, b.booker, b.start, b.end)
  }

  /** `itemRepository.findById` on the items table. */
  function FindItem(items: seq<Item>, id: int): Option<Item> {
    FindBy(items, IdOfItem, id)
  }

  function CreatedKey(c: Comment): int { c.created }

  function ItemKey(c: Comment): int { c.item }

  function OnItem(itemId: int): Comment -> bool {
    (c: Comment) => c.item == itemId
  }

  function OnItems(ids: seq<int>): Comment -> bool {
    (c: Comment) => c.item in ids
  }

  /** `findByItem_IdOrderByCreatedAsc`: the item's comments, oldest first. */
  function CommentsOf(comments: seq<Comment>, itemId: int): (r: seq<Comment>)
    ensures SortedBy(r, CreatedKey)
    ensures forall c :: multiset(r)[c] == if c.item == itemId then multiset(comments)[c] else 0
  {
    var mine := Filter(comments, OnItem(itemId));
    var r := SortBy(mine, CreatedKey);
    assert forall c :: multiset(mine)[c] == if OnItem(itemId)(c) then multiset(comments)[c] else 0;
    r
  }

  /** `findByItemIdInOrderByCreatedAsc`: the comments of these items, oldest
      first. The query orders by item id before `created`; grouping by item
      afterwards makes that first key irrelevant. */
  function CommentsIn(comments: seq<Comment>, ids: seq<int>): (r: seq<Comment>)
    ensures SortedBy(r, CreatedKey)
    ensures forall c :: multiset(r)[c] == if c.item in ids then multiset(comments)[c] else 0
  {
    var ours := Filter(comments, OnItems(ids));
    var r := SortBy(ours, CreatedKey);
    assert forall c :: multiset(ours)[c] == if OnItems(ids)(c) then multiset(comments)[c] else 0;
    r
  }

  /** One group of a sorted sequence is still sorted. */
  lemma {:induction false} WithKeySorted<T(!new)>(s: seq<T>, key: T -> int, sortKey: T -> int, k: int)
    requires SortedBy(s, sortKey)
    ensures SortedBy(WithKey(s, key, k), sortKey)
  {
    if s != [] {
      WithKeySorted(s[1..], key, sortKey, k);
      WithKeyBounded(s[1..], key, sortKey, k, sortKey(s[0]));
      var rest := WithKey(s[1..], key, k);
      var r := WithKey(s, key, k);
      if key(s[0]) == k {
        assert r == [s[0]] + rest;
        assert forall j :: 0 < j < |r| ==> r[j] == rest[j - 1];
      } else {
        assert r == rest;
      }
    }
  }

  /** A bound below every key of a sequence bounds every key of a group. */
  lemma {:induction false} WithKeyBounded<T(!new)>(s: seq<T>, key: T -> int, sortKey: T -> int, k: int, lo: int)
    requires forall i :: 0 <= i < |s| ==> lo <= sortKey(s[i])
    ensures forall j :: 0 <= j < |WithKey(s, key, k)| ==> lo <= sortKey(WithKey(s, key, k)[j])
  {
    if s != [] {
      WithKeyBounded(s[1..], key, sortKey, k, lo);
      var rest := WithKey(s[1..], key, k);
      var r := WithKey(s, key, k);
      assert r == (if key(s[0]) == k then [s[0]] else []) + rest;
    }
  }

  /** The ids of the page's items: `map(Item::getId)`. */
  function IdsOf(items: seq<Item>): seq<int> {
    Keys(items, IdOfItem)
  }

  /** `Collectors.toMap(b -> b.getItem().getId(), b -> b, (one, two) -> one)`:
      one entry per item id that occurs; the first record wins. */
  function FirstWins(bs: seq<Booking>): map<Option<int>, Booking> {
    if bs == [] then map[]
    else FirstWins(bs[1..])[ItemIdOf(bs[0]) := bs[0]]
  }

  /** A key has an entry exactly when some record carries it, and the entry
      is the first such record. */
  lemma {:induction false} FirstWinsMeaning(bs: seq<Booking>, k: Option<int>, i: nat)
    requires i < |bs| && ItemIdOf(bs[i]) == k
    requires forall j :: 0 <= j < i ==> ItemIdOf(bs[j]) != k
    ensures k in FirstWins(bs) && FirstWins(bs)[k] == bs[i]
  {
    if i > 0 {
      FirstWinsMeaning(bs[1..], k, i - 1);
    }
  }

  /** A key no record carries has no entry. */
  lemma {:induction false} FirstWinsAbsent(bs: seq<Booking>, k: Option<int>)
    requires forall j :: 0 <= j < |bs| ==> ItemIdOf(bs[j]) != k
    ensures k !in FirstWins(bs)
  {
    if bs != [] {
      FirstWinsAbsent(bs[1..], k);
    }
  }

  /** With two records for item 1, the map keeps the first. */
  lemma FirstRecordWins(a: Booking, b: Booking)
    requires ItemIdOf(a) == ItemIdOf(b) == Some(1)
    ensures FirstWins([a, b]) == map[Some(1) := a]
  {
    assert [a, b][1..] == [b];
    assert FirstWins([b]) == map[Some(1) := b];
  }

  function OwnedByFilter(ownerId: int): Item -> bool {
    (it: Item) => it.owner == Some(ownerId)
  }

  /** `findByOwner_Id(ownerId, page)`: the owner's items in table order, the
      page cut out of them. */
  function OwnerPage(items: seq<Item>, ownerId: int, p: PageRequest): (r: seq<Item>)
    ensures IsPage(r, Filter(items, OwnedByFilter(ownerId)), p)
    ensures forall i :: 0 <= i < |r| ==> r[i] in items && r[i].owner == Some(ownerId)
  {
    var mine := Filter(items, OwnedByFilter(ownerId));
    var r := Content(mine, p);
    assert forall i :: 0 <= i < |r| ==> r[i] in mine && OwnedByFilter(ownerId)(r[i]);
    r
  }

  /** One entry of the listing: the item with the booking the last/next maps
      hold for its id, if any, and its group of comments, or none. */
  function OwnerView(it: Item, last: map<Option<int>, Booking>, next: map<Option<int>, Booking>,
                     groups: map<int, seq<Comment>>): ItemView {
    ItemView(
      it,
      if it.id in last then Some(Short(last[it.id])) else None,
      if it.id in next then Some(Short(next[it.id])) else None,
      if it.id.Some? && it.id.value in groups then groups[it.id.value] else [])
  }

  /** The listing of the items of one page. */
  function PageViews(page: seq<Item>, bookings: seq<Booking>, comments: seq<Comment>, now: int): (r: seq<ItemView>)
    ensures |r| == |page| && forall i :: 0 <= i < |page| ==> r[i].item == page[i]
  {
    var ids := IdsOf(page);
    var last := FirstWins(FindEdge(bookings, Last, ids, now, Status.APPROVED));
    var next := FirstWins(FindEdge(bookings, Next, ids, now, Status.APPROVED));
    var groups := GroupBy(CommentsIn(comments, ids), ItemKey);
    seq(|page|, i requires 0 <= i < |page| => OwnerView(page[i], last, next, groups))
  }

  /** `findAllByOwnerWithBookings`: a size of zero or less gives an empty
      list before any query; otherwise page `from / size` of the owner's
      items, one entry per item of the page, in page order. */
  function OwnerItems(items: seq<Item>, bookings: seq<Booking>, comments: seq<Comment>,
                      ownerId: int, from: Int32, size: Int32, now: int): (r: Result<seq<ItemView>>)
    ensures size <= 0 ==> r == Ok([])
    ensures r.Ok? <==> size <= 0 || FromOffset(from, size).Ok?
    ensures 0 < size && FromOffset(from, size).Err? ==> r == Err(FromOffset(from, size).error)
    ensures r.Ok? && 0 < size ==>
              r.value == PageViews(OwnerPage(items, ownerId, FromOffset(from, size).value), bookings, comments, now)
  {
    if size <= 0 then Ok([])
    else
      var p :- FromOffset(from, size);
      var page := OwnerPage(items, ownerId, p);
      if page == [] then Ok([])
      else Ok(PageViews(page, bookings, comments, now))
  }

  /** The entry of an item carries the booking the "last" and "next" queries
      pick for it, and none when the item has no id or no candidate. */
  lemma PageViewBookings(page: seq<Item>, bookings: seq<Booking>, comments: seq<Comment>, now: int, i: nat)
    requires i < |page|
    ensures var v := PageViews(page, bookings, comments, now)[i];
            var id := page[i].id;
            && v.lastBooking == (if id.None? then None else MapShort(Pick(bookings, Last, id.value, now, Status.APPROVED)))
            && v.nextBooking == (if id.None? then None else MapShort(Pick(bookings, Next, id.value, now, Status.APPROVED)))
  {
    var ids := IdsOf(page);
    EdgeEntry(bookings, Last, ids, now, page[i].id);
    EdgeEntry(bookings, Next, ids, now, page[i].id);
  }

  function MapShort(b: Option<Booking>): Option<BookingShort> {
    if b.Some? then Some(Short(b.value)) else None
  }

  /** Looking an id of `ids` up in the first-wins map of an edge query gives
      the picked booking. */
  lemma EdgeEntry(bookings: seq<Booking>, edge: Edge, ids: seq<int>, now: int, id: Option<int>)
    requires id.Some? ==> id.value in ids
    ensures var m := FirstWins(FindEdge(bookings, edge, ids, now, Status.APPROVED));
            (if id in m then Some(m[id]) else None)
            == (if id.None? then None else Pick(bookings, edge, id.value, now, Status.APPROVED))
  {
    var r := FindEdge(bookings, edge, ids, now, Status.APPROVED);
    if id.None? || Pick(bookings, edge, id.value, now, Status.APPROVED).None? {
      FirstWinsAbsent(r, id);
    } else {
      var b := Pick(bookings, edge, id.value, now, Status.APPROVED).value;
      var i :| 0 <= i < |r| && r[i] == b;
      FirstWinsMeaning(r, id, i);
    }
  }

  /** The entry of an item with an id carries exactly that item's comments,
      oldest first; an item without an id carries none. */
  lemma PageViewComments(page: seq<Item>, bookings: seq<Booking>, comments: seq<Comment>, now: int, i: nat)
    requires i < |page|
    ensures var v := PageViews(page, bookings, comments, now)[i];
            && SortedBy(v.comments, CreatedKey)
            && (page[i].id.None? ==> v.comments == [])
            && (page[i].id.Some? ==>
                  forall c :: multiset(v.comments)[c] == if c.item == page[i].id.value then multiset(comments)[c] else 0)
  {
    var ids := IdsOf(page);
    var all := CommentsIn(comments, ids);
    if page[i].id.Some? {
      var k := page[i].id.value;
      GroupByMeaning(all, ItemKey, k);
      var g := WithKey(all, ItemKey, k);
      WithKeySorted(all, ItemKey, CreatedKey, k);
      forall c: Comment ensures multiset(g)[c] == if c.item == k then multiset(comments)[c] else 0 {
      }
    }
  }

  /** `getById`: the item with its comments, oldest first, and never a last
      or next booking. */
  function GetById(items: seq<Item>, comments: seq<Comment>, itemId: int): (r: Result<ItemView>)
    ensures r.Err? <==> FindItem(items, itemId).None?
    ensures r.Err? ==> r.error == NotFound("item not found")
    ensures r.Ok? ==>
              r.value.item == FindItem(items, itemId).value
              && r.value.lastBooking.None? && r.value.nextBooking.None?
              && SortedBy(r.value.comments, CreatedKey)
              && forall c :: multiset(r.value.comments)[c] == if c.item == itemId then multiset(comments)[c] else 0
  {
    match FindItem(items, itemId)
    case None => Err(NotFound("item not found"))
    case Some(item) => Ok(ItemView(item, None, None, CommentsOf(comments, itemId)))
  }

  /** The JPQL `search`: available items whose upper-cased name or
      description contains the upper-cased text. */
  predicate Like(field: Option<string>, pattern: string) {
    field.Some? && Contains(Upper(field.value), pattern)
  }

  /** The `where` clause, given the upper-cased text. */
  function SearchFilter(pattern: string): Item -> bool {
    (it: Item) => it.available == Some(true) && (Like(it.name, pattern) || Like(it.description, pattern))
  }

  /** `search`: text without a non-whitespace character gives an empty list
      before any query; otherwise the matching available items. */
  function Search(items: seq<Item>, text: Option<string>): (r: seq<Item>)
    ensures !HasText(text) ==> r == []
    ensures forall i :: 0 <= i < |r| ==> r[i] in items && r[i].available == Some(true)
    ensures forall x :: x in r <==> HasText(text) && x in items && SearchFilter(Upper(text.value))(x)
    ensures HasText(text) ==>
              forall x :: multiset(r)[x] == if SearchFilter(Upper(text.value))(x) then multiset(items)[x] else 0
  {
    if !HasText(text) then []
    else
      var r := Filter(items, SearchFilter(Upper(text.value)));
      forall x ensures x in r <==> x in items && SearchFilter(Upper(text.value))(x) {
        FilterMembers(items, SearchFilter(Upper(text.value)), x);
      }
      assert forall i :: 0 <= i < |r| ==> SearchFilter(Upper(text.value))(r[i]);
      r
  }

  lemma UpperUpper(s: string)
    ensures Upper(Upper(s)) == Upper(s)
  {
    assert forall i :: 0 <= i < |s| ==> Upper(Upper(s))[i] == Upper(s)[i];
  }

  /** Upper-casing the text changes neither the guard nor the result: the
      search ignores case. */
  lemma SearchIgnoresCase(items: seq<Item>, text: string)
    ensures Search(items, Some(Upper(text))) == Search(items, Some(text))
  {
    UpperUpper(text);
    assert forall i :: 0 <= i < |text| ==> (IsWhitespace(Upper(text)[i]) <==> IsWhitespace(text[i]));
    if HasText(Some(text)) {
      var i :| 0 <= i < |text| && !IsWhitespace(text[i]);
      assert !IsWhitespace(Upper(text)[i]);
    }
    if HasText(Some(Upper(text))) {
      var i :| 0 <= i < |Upper(text)| && !IsWhitespace(Upper(text)[i]);
      assert !IsWhitespace(text[i]);
    }
  }

  /** The guards `update` runs before changing the item: it must exist and
      belong to the caller. */
  function UpdateCheck(items: seq<Item>, ownerId: int, itemId: int): (r: Result<Item>)
    ensures FindItem(items, itemId).None? ==> r == Err(NotFound("item not found"))
    ensures r.Ok? <==> FindItem(items, itemId).Some? && FindItem(items, itemId).value.owner == Some(ownerId)
    ensures r.Ok? ==> r.value == FindItem(items, itemId).value
    ensures FindItem(items, itemId).Some? && !r.Ok? ==> r == Err(NotFound("only owner can update item"))
  {
    match FindItem(items, itemId)
    case None => Err(NotFound("item not found"))
    case Some(item) =>
      if item.owner.None? || item.owner.value != ownerId then Err(NotFound("only owner can update item"))
      else Ok(item)
  }

  /** The guards of `delete`: the same, but a stranger gets IllegalState. */
  function DeleteCheck(items: seq<Item>, ownerId: int, itemId: int): (r: Result<Item>)
    ensures FindItem(items, itemId).None? ==> r == Err(NotFound("item not found"))
    ensures r.Ok? <==> FindItem(items, itemId).Some? && FindItem(items, itemId).value.owner == Some(ownerId)
    ensures FindItem(items, itemId).Some? && !r.Ok? ==> r == Err(IllegalState("only owner can delete item"))
  {
    match FindItem(items, itemId)
    case None => Err(NotFound("item not found"))
    case Some(item) =>
      if item.owner.None? || item.owner.value != ownerId then Err(IllegalState("only owner can delete item"))
      else Ok(item)
  }

  /** The guards of `addComment`, in order, then the comment to store. */
  function CommentCheck(users: set<int>, items: seq<Item>, bookings: seq<Booking>,
                        userId: int, itemId: int, text: Option<string>, now: int): (r: Result<Comment>)
    ensures NullOrBlank(text) ==> r == Err(IllegalState("комментарий пуст"))
    ensures !NullOrBlank(text) && userId in users && FindItem(items, itemId).Some?
            && !ExistsFinished(bookings, userId, itemId, Status.APPROVED, now) ==>
              r == Err(IllegalState("пользователь не брал товар"))
    ensures !NullOrBlank(text) && userId !in users ==> r == Err(NotFound("user not found"))
    ensures !NullOrBlank(text) && userId in users && FindItem(items, itemId).None? ==>
              r == Err(NotFound("item not found"))
    ensures r.Ok? <==>
              !NullOrBlank(text) && userId in users && FindItem(items, itemId).Some?
              && ExistsFinished(bookings, userId, itemId, Status.APPROVED, now)
    ensures r.Ok? ==> r.value == Comment(None, itemId, userId, Trim(text.value), now)
  {
    if NullOrBlank(text) then Err(IllegalState("комментарий пуст"))
    else if userId !in users then Err(NotFound("user not found"))
    else if FindItem(items, itemId).None? then Err(NotFound("item not found"))
    else if !ExistsFinished(bookings, userId, itemId, Status.APPROVED, now) then Err(IllegalState("пользователь не брал товар"))
    else Ok(Comment(None, itemId, userId, Trim(text.value), now))
  }

  /** A comment is allowed exactly when its author has an approved booking of
      the item that ended before `now`; the stored text is already trimmed. */
  lemma CommentNeedsFinishedBooking(users: set<int>, items: seq<Item>, bookings: seq<Booking>,
                                    userId: int, itemId: int, text: Option<string>, now: int)
    requires CommentCheck(users, items, bookings, userId, itemId, text, now).Ok?
    ensures exists i :: 0 <= i < |bookings| && bookings[i].booker == Some(userId)
                        && ItemIdOf(bookings[i]) == Some(itemId) && bookings[i].status == Status.APPROVED
                        && bookings[i].end < now
    ensures var c := CommentCheck(users, items, bookings, userId, itemId, text, now).value;
            Trim(c.text) == c.text
  {
    TrimIdempotent(text.value);
  }

  /** `String.trim` strips more than `isBlank` looks at: a text of one NUL
      character passes the blank guard and is stored as an empty comment. */
  lemma NulCommentStoredEmpty(users: set<int>, items: seq<Item>, bookings: seq<Booking>,
                              userId: int, itemId: int, now: int)
    requires CommentCheck(users, items, bookings, userId, itemId, Some("x"), now).Ok?
    ensures CommentCheck(users, items, bookings, userId, itemId, Some("\0"), now).Ok?
    ensures CommentCheck(users, items, bookings, userId, itemId, Some("\0"), now).value.text == ""
  {
    assert !Blank("\0") by {
      assert !IsWhitespace("\0"[0]);
    }
    assert Lead("\0") == 1;
  }

  /** The rows of the item table without the given id: `deleteById`. */
  function WithoutId(items: seq<Item>, id: int): (r: seq<Item>)
    ensures forall x :: x in r <==> x in items && x.id != Some(id)
  {
    var p := (it: Item) => it.id != Some(id);
    var r := Filter(items, p);
    forall x ensures x in r <==> x in items && p(x) {
      FilterMembers(items, p, x);
    }
    r
  }

  class Service {
    var items: seq<Item>
    var bookings: seq<Booking>
    var comments: seq<Comment>
    var nextCommentId: int
    var users: set<int>

    constructor (users: set<int>, items: seq<Item>, bookings: seq<Booking>)
      ensures this.users == users && this.items == items && this.bookings == bookings
      ensures comments == [] && nextCommentId == 0
    {
      this.users := users;
      this.items := items;
      this.bookings := bookings;
      comments := [];
      nextCommentId := 0;
    }

    /** `addComment`: on success exactly one comment is stored, under a new
        id; on failure nothing changes. */
    method AddComment(userId: int, itemId: int, text: Option<string>, now: int) returns (r: Result<Comment>)
      modifies this
      ensures items == old(items) && bookings == old(bookings) && users == old(users)
      ensures CommentCheck(users, items, bookings, userId, itemId, text, now).Err? ==>
                r == CommentCheck(users, items, bookings, userId, itemId, text, now)
                && comments == old(comments) && nextCommentId == old(nextCommentId)
      ensures CommentCheck(users, items, bookings, userId, itemId, text, now).Ok? ==>
                r == Ok(CommentCheck(users, items, bookings, userId, itemId, text, now).value.(id := Some(old(nextCommentId))))
                && comments == old(comments) + [r.value] && nextCommentId == old(nextCommentId) + 1
    {
      r := CommentCheck(users, items, bookings, userId, itemId, text, now);
      if r.Ok? {
        var saved := r.value.(id := Some(nextCommentId));
        comments := comments + [saved];
        nextCommentId := nextCommentId + 1;
        r := Ok(saved);
      }
    }

    /** `delete`: after the guards, the item's row goes and nothing else
        changes. */
    method Delete(ownerId: int, itemId: int) returns (r: Result<Item>)
      modifies this
      ensures r == DeleteCheck(old(items), ownerId, itemId)
      ensures bookings == old(bookings) && comments == old(comments) && users == old(users)
      ensures nextCommentId == old(nextCommentId)
      ensures r.Err? ==> items == old(items)
      ensures r.Ok? ==> items == WithoutId(old(items), itemId)
    {
      r := DeleteCheck(items, ownerId, itemId);
      if r.Ok? {
        items := WithoutId(items, itemId);
      }
    }
  }
}
