/** The queries of the JPA `BookingRepository`, as predicates and selections
    over the rows of the bookings table in storage order. A derived query's
    name fixes its predicate; the two native queries pick one booking per item. */
module BookingQueries {
  import opened Shared
  import opened Seqs
  import opened Paging
  import opened Domain

  /** Whose bookings a derived listing query selects: `findByBooker_Id…`
      matches `booker.id`, `findByItem_Owner_Id…` matches `item.owner.id`. */
  datatype Subject = ByBooker(userId: int) | ByOwner(ownerId: int)

  /** The rest of a listing query's name: nothing, `StartBeforeAndEndAfter`,
      `EndBefore`, `StartAfter` or `Status`. */
  datatype Condition =
    | Anything
    | StartBeforeEndAfter(t1: int, t2: int)
    | EndBefore(t: int)
    | StartAfter(t: int)
    | StatusIs(st: Status)

  predicate About(subject: Subject, b: Booking) {
    match subject
    case ByBooker(u) => b.booker == Some(u)
    case ByOwner(o) => OwnerOf(b) == Some(o)
  }

  /** `Before` and `After` are strict comparisons. */
  predicate Meets(cond: Condition, b: Booking) {
    match cond
    case Anything => true
    case StartBeforeEndAfter(t1, t2) => b.start < t1 && b.end > t2
    case EndBefore(t) => b.end < t
    case StartAfter(t) => b.start > t
    case StatusIs(st) => b.status == st
  }

  predicate Selects(subject: Subject, cond: Condition, b: Booking) {
    About(subject, b) && Meets(cond, b)
  }

  /** The sort key of `Sort.by(DESC, "start")`. */
  function NewestFirst(b: Booking): int { -b.start }

  /** Every row the query selects, latest start first. */
  function Selection(rows: seq<Booking>, subject: Subject, cond: Condition): (r: seq<Booking>)
    ensures forall b :: multiset(r)[b] == if Selects(subject, cond, b) then multiset(rows)[b] else 0
    ensures forall i, j :: 0 <= i < j < |r| ==> r[i].start >= r[j].start
  {
    var picked := Filter(rows, (b: Booking) => Selects(subject, cond, b));
    var r := SortBy(picked, NewestFirst);
    assert forall i, j :: 0 <= i < j < |r| ==> NewestFirst(r[i]) <= NewestFirst(r[j]);
    r
  }

  /** A derived listing query with a `Pageable` sorted by start, descending:
      one page of the selection. */
  function FindPage(rows: seq<Booking>, subject: Subject, cond: Condition, p: PageRequest): (r: seq<Booking>)
    ensures IsPage(r, Selection(rows, subject, cond), p)
    ensures |r| <= p.size
    ensures forall i :: 0 <= i < |r| ==> r[i] in rows && Selects(subject, cond, r[i])
    ensures forall i, j :: 0 <= i < j < |r| ==> r[i].start >= r[j].start
  {
    var all := Selection(rows, subject, cond);
    forall i | 0 <= i < |all| ensures all[i] in rows && Selects(subject, cond, all[i]) {
      assert multiset(all)[all[i]] > 0;
    }
    Content(all, p)
  }

  /** Every selected row appears on exactly one page, at the position its rank
      in the selection gives. */
  lemma OnItsPage(rows: seq<Booking>, subject: Subject, cond: Condition, k: nat, size: nat)
    requires 0 < size && k < |Selection(rows, subject, cond)|
    ensures var p := PageOfRow(k, size);
            var page := FindPage(rows, subject, cond, p);
            k - Offset(p) < |page| && page[k - Offset(p)] == Selection(rows, subject, cond)[k]
  {
    PageOf(Selection(rows, subject, cond), k, size);
  }

  /** `existsByItem_IdAndStatusAndStartLessThanAndEndGreaterThan(itemId, st, s, e)`:
      some row of that item and status starts before `s` and ends after `e`. */
  function ExistsStartLessEndGreater(rows: seq<Booking>, itemId: int, st: Status, s: int, e: int): (r: bool)
    ensures r <==> exists i :: 0 <= i < |rows| && ItemIdOf(rows[i]) == Some(itemId)
                     && rows[i].status == st && rows[i].start < s && rows[i].end > e
  {
    Any(rows, (b: Booking) => ItemIdOf(b) == Some(itemId) && b.status == st && b.start < s && b.end > e)
  }

  /** `existsByBooker_IdAndItem_IdAndStatusAndEndBefore`: the comment
      eligibility test. */
  function ExistsFinished(rows: seq<Booking>, bookerId: int, itemId: int, st: Status, endBefore: int): (r: bool)
    ensures r <==> exists i :: 0 <= i < |rows| && rows[i].booker == Some(bookerId)
                     && ItemIdOf(rows[i]) == Some(itemId) && rows[i].status == st && rows[i].end < endBefore
  {
    Any(rows, (b: Booking) => b.booker == Some(bookerId) && ItemIdOf(b) == Some(itemId) && b.status == st && b.end < endBefore)
  }

  /** `findById` on the bookings table. */
  function FindById(rows: seq<Booking>, id: int): Option<Booking> {
    FindBy(rows, IdOfBooking, id)
  }

  /** `findDetailedById`: the same row, but the inner `join fetch` of booker,
      item and item owner drops a row that lacks any of them. */
  function FindDetailedById(rows: seq<Booking>, id: int): (r: Option<Booking>)
    ensures r.Some? <==> FindById(rows, id).Some? && Joined(FindById(rows, id).value)
    ensures r.Some? ==> r == FindById(rows, id)
  {
    match FindById(rows, id)
    case Some(b) => if Joined(b) then Some(b) else None
    case None => None
  }

  predicate Joined(b: Booking) {
    b.booker.Some? && b.item.Some? && b.item.value.owner.Some?
  }

  /** Which of the two native "one booking per item" queries. */
  datatype Edge = Last | Next

  /** `findLastByItemIds` considers rows of the item and status that started
      before `now`; `findNextByItemIds` those that start after `now`. */
  predicate Candidate(edge: Edge, b: Booking, itemId: int, now: int, st: Status) {
    ItemIdOf(b) == Some(itemId) && b.status == st &&
    match edge
    case Last => b.start < now
    case Next => b.start > now
  }

  /** `a` ranks at least as high as `c`: the latest end for Last
      (`order by end_time desc`), the earliest start for Next
      (`order by start_time`). */
  predicate Ranks(edge: Edge, a: Booking, c: Booking) {
    match edge
    case Last => c.end <= a.end
    case Next => a.start <= c.start
  }

  /** The booking `distinct on (id_item)` keeps for one item: the first
      candidate in row order among the best ranked. */
  function Pick(rows: seq<Booking>, edge: Edge, itemId: int, now: int, st: Status): (r: Option<Booking>)
    ensures r.None? <==> forall i :: 0 <= i < |rows| ==> !Candidate(edge, rows[i], itemId, now, st)
    ensures r.Some? ==> r.value in rows && Candidate(edge, r.value, itemId, now, st)
    ensures r.Some? ==> forall i :: 0 <= i < |rows| && Candidate(edge, rows[i], itemId, now, st)
                          ==> Ranks(edge, r.value, rows[i])
  {
    if rows == [] then None
    else
      var rest := Pick(rows[1..], edge, itemId, now, st);
      assert forall i :: 0 < i < |rows| ==> rows[i] == rows[1..][i - 1];
      if Candidate(edge, rows[0], itemId, now, st) && (rest.None? || Ranks(edge, rows[0], rest.value))
      then Some(rows[0])
      else rest
  }

  /** `findLastByItemIds` / `findNextByItemIds`: at most one booking per item
      of `ids`, the picked one, in increasing item id order. */
  function FindEdge(rows: seq<Booking>, edge: Edge, ids: seq<int>, now: int, st: Status): (r: seq<Booking>)
    ensures forall i :: 0 <= i < |r| ==>
              ItemIdOf(r[i]).Some? && ItemIdOf(r[i]).value in ids &&
              Pick(rows, edge, ItemIdOf(r[i]).value, now, st) == Some(r[i])
    ensures forall k :: k in ids && Pick(rows, edge, k, now, st).Some? ==> Pick(rows, edge, k, now, st).value in r
    ensures forall i, j :: 0 <= i < j < |r| ==> ItemIdOf(r[i]).value < ItemIdOf(r[j]).value
  {
    var pick := PickFor(rows, edge, now, st);
    assert forall k :: pick(k).Some? ==> ItemIdOf(pick(k).value) == Some(k);
    Gather(pick, Ascending(ids))
  }

  function PickFor(rows: seq<Booking>, edge: Edge, now: int, st: Status): int -> Option<Booking> {
    k => Pick(rows, edge, k, now, st)
  }

  /** One picked booking per key that has one, in key order. */
  function Gather(pick: int -> Option<Booking>, keys: seq<int>): (r: seq<Booking>)
    requires Increasing(keys)
    requires forall k :: pick(k).Some? ==> ItemIdOf(pick(k).value) == Some(k)
    ensures forall i :: 0 <= i < |r| ==>
              ItemIdOf(r[i]).Some? && ItemIdOf(r[i]).value in keys && pick(ItemIdOf(r[i]).value) == Some(r[i])
    ensures forall k :: k in keys && pick(k).Some? ==> pick(k).value in r
    ensures forall i, j :: 0 <= i < j < |r| ==> ItemIdOf(r[i]).value < ItemIdOf(r[j]).value
  {
    if keys == [] then []
    else
      var rest := Gather(pick, keys[1..]);
      assert forall k :: k in keys <==> k == keys[0] || k in keys[1..];
      match pick(keys[0])
      case Some(b) =>
        forall j | 0 <= j < |rest| ensures keys[0] < ItemIdOf(rest[j]).value {
          IncreasingHead(keys, ItemIdOf(rest[j]).value);
        }
        var r := [b] + rest;
        assert forall i :: 0 < i < |r| ==> r[i] == rest[i - 1];
        r
      case None => rest
  }

  lemma IncreasingHead(keys: seq<int>, v: int)
    requires Increasing(keys) && keys != [] && v in keys[1..]
    ensures keys[0] < v
  {
    var m :| 0 <= m < |keys[1..]| && keys[1..][m] == v;
    assert keys[m + 1] == v;
  }
}
