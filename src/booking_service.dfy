/** `BookingServiceImpl`: the booking lifecycle over the bookings table.
    Each operation is a guard chain whose first failing guard decides the
    error; the guard chains are pure functions of the tables, and the class
    applies their outcome to the table. */
module BookingService {
  import opened Shared
  import opened Paging
  import opened Domain
  import opened States
  import opened BookingQueries
  import BookingStore

  /** `BookingCreateDto`. */
  datatype BookingRequest = BookingRequest(itemId: int, start: int, end: int)

  /** The approved-conflict test as the service calls it, with the request's
      own (start, end): an APPROVED booking of the item that starts before
      `start` and ends after `end`. A null item id matches no row. */
  predicate ConflictAsWritten(rows: seq<Booking>, itemId: Option<int>, start: int, end: int) {
    itemId.Some? && ExistsStartLessEndGreater(rows, itemId.value, Status.APPROVED, start, end)
  }

  /** The same query called with (end, start): an APPROVED booking of the
      item that starts before `end` and ends after `start`. */
  predicate ConflictIntended(rows: seq<Booking>, itemId: Option<int>, start: int, end: int) {
    itemId.Some? && ExistsStartLessEndGreater(rows, itemId.value, Status.APPROVED, end, start)
  }

  /** The conflict test `create` and `approve` run. */
  predicate Conflicts(v: Version, rows: seq<Booking>, itemId: Option<int>, start: int, end: int) {
    match v
    case AsWritten => ConflictAsWritten(rows, itemId, start, end)
    case Corrected => ConflictIntended(rows, itemId, start, end)
  }

  /** The booking `create` stores once every guard passes: `toEntity` with
      status WAITING, and no id until the table assigns one. */
  function NewBooking(userId: int, req: BookingRequest, item: Item): Booking {
    Booking(None, req.start, req.end, Some(item), Some(userId), Status.WAITING)
  }

  /** The guards of `create` in order, then the booking to store. The item
      table is keyed by primary key. */
  function CreateCheck(v: Version, rows: seq<Booking>, users: set<int>, items: map<int, Item>,
                       userId: int, req: BookingRequest, now: int): (r: Result<Booking>)
    ensures r.Ok? <==>
              req.start < req.end && now <= req.start && userId in users && req.itemId in items
              && items[req.itemId].owner.Some? && items[req.itemId].owner.value != userId
              && items[req.itemId].available == Some(true)
              && !Conflicts(v, rows, items[req.itemId].id, req.start, req.end)
    ensures r.Ok? ==> r.value == NewBooking(userId, req, items[req.itemId])
    ensures req.start < req.end && now <= req.start && userId in users && req.itemId in items
            && items[req.itemId].owner.Some? && items[req.itemId].owner.value != userId
            && items[req.itemId].available == Some(true)
            && Conflicts(v, rows, items[req.itemId].id, req.start, req.end) ==>
              r == Err(IllegalState("overlaps with approved booking"))
  {
    if !(req.start < req.end) then Err(IllegalArgument("start must be before end"))
    else if req.start < now then Err(IllegalArgument("start must be in future"))
    else if userId !in users then Err(NotFound("booker not found"))
    else if req.itemId !in items then Err(NotFound("item not found"))
    else
      var item := items[req.itemId];
      if item.owner.None? then Err(NotFound("item owner missing"))
      else if item.owner.value == userId then Err(IllegalState("owner cannot book own item"))
      else if item.available != Some(true) then Err(IllegalState("item not available"))
      else if Conflicts(v, rows, item.id, req.start, req.end) then Err(IllegalState("overlaps with approved booking"))
      else Ok(NewBooking(userId, req, item))
  }

  /** The window is checked before any table is read: with start not
      strictly before end the outcome is the same whatever the tables hold. */
  lemma CreateChecksWindowFirst(v: Version, rows: seq<Booking>, rows': seq<Booking>, users: set<int>, users': set<int>,
                                items: map<int, Item>, items': map<int, Item>,
                                userId: int, req: BookingRequest, now: int, now': int)
    requires req.end <= req.start
    ensures CreateCheck(v, rows, users, items, userId, req, now)
            == CreateCheck(v, rows', users', items', userId, req, now')
            == Err(IllegalArgument("start must be before end"))
  {
  }

  /** `isBefore` is strict: a booking may start at `now`, and one that
      starts earlier is refused before any table is read. */
  lemma CreateStartAtNow(v: Version, rows: seq<Booking>, users: set<int>, items: map<int, Item>,
                         userId: int, req: BookingRequest, now: int)
    requires req.start < req.end
    ensures req.start < now ==> CreateCheck(v, rows, users, items, userId, req, now) == Err(IllegalArgument("start must be in future"))
    ensures req.start == now ==> CreateCheck(v, rows, users, items, userId, req, now) != Err(IllegalArgument("start must be in future"))
  {
  }

  /** The remaining guards in order: the first one that fails decides the
      error. */
  lemma CreateGuardOrder(v: Version, rows: seq<Booking>, users: set<int>, items: map<int, Item>,
                         userId: int, req: BookingRequest, now: int)
    requires req.start < req.end && now <= req.start
    ensures var r := CreateCheck(v, rows, users, items, userId, req, now);
      && (userId !in users ==> r == Err(NotFound("booker not found")))
      && (userId in users && req.itemId !in items ==> r == Err(NotFound("item not found")))
      && (userId in users && req.itemId in items && items[req.itemId].owner.None? ==>
            r == Err(NotFound("item owner missing")))
      && (userId in users && req.itemId in items && items[req.itemId].owner == Some(userId) ==>
            r == Err(IllegalState("owner cannot book own item")))
      && (userId in users && req.itemId in items && items[req.itemId].owner.Some?
          && items[req.itemId].owner != Some(userId) && items[req.itemId].available != Some(true) ==>
            r == Err(IllegalState("item not available")))
  {
  }

  /** The conflict test as written only sees an approved booking that
      strictly encloses the request. */
  lemma ConflictAsWrittenMeansEnclosing(rows: seq<Booking>, itemId: int, start: int, end: int)
    ensures ConflictAsWritten(rows, Some(itemId), start, end) <==>
            exists i :: 0 <= i < |rows| && ItemIdOf(rows[i]) == Some(itemId) && rows[i].status == Status.APPROVED
                        && rows[i].start < start && end < rows[i].end
  {
  }

  /** The intended test is the half-open overlap of the in-memory store. */
  lemma ConflictIntendedMeansOverlap(rows: seq<Booking>, itemId: int, start: int, end: int)
    ensures ConflictIntended(rows, Some(itemId), start, end) <==>
            exists i :: 0 <= i < |rows| && ItemIdOf(rows[i]) == Some(itemId) && rows[i].status == Status.APPROVED
                        && BookingStore.Overlaps(rows[i].start, rows[i].end, start, end)
  {
  }

  /** An approved booking [10, 20) of item 1 does not stop a request for
      [15, 25) as written, although the windows overlap; the intended test
      stops it. */
  lemma ConflictAsWrittenMissesOverlap()
    ensures var item := Item(Some(1), Some("drill"), None, Some(true), Some(7), None);
            var rows := [Booking(Some(0), 10, 20, Some(item), Some(8), Status.APPROVED)];
            BookingStore.Overlaps(10, 20, 15, 25)
            && !ConflictAsWritten(rows, Some(1), 15, 25)
            && ConflictIntended(rows, Some(1), 15, 25)
  {
    var item := Item(Some(1), Some("drill"), None, Some(true), Some(7), None);
    var rows := [Booking(Some(0), 10, 20, Some(item), Some(8), Status.APPROVED)];
    assert ItemIdOf(rows[0]) == Some(1);
  }

  /** The decision `approve` takes on one stored booking, once it is found:
      only the item's owner may decide, only once, and approving re-runs the
      conflict test on the booking's own item and window. */
  function DecideCheck(v: Version, rows: seq<Booking>, b: Booking, ownerId: int, approved: bool): (r: Result<Booking>)
    ensures r.Ok? ==> OwnerOf(b) == Some(ownerId) && b.status == Status.WAITING
    ensures r.Ok? ==> r.value == b.(status := if approved then Status.APPROVED else Status.REJECTED)
    ensures r.Ok? && approved ==> !Conflicts(v, rows, ItemIdOf(b), b.start, b.end)
    ensures OwnerOf(b) != Some(ownerId) ==> r == Err(IllegalState("only owner can approve"))
    ensures OwnerOf(b) == Some(ownerId) && b.status != Status.WAITING ==> r == Err(IllegalState("already decided"))
    ensures !approved && OwnerOf(b) == Some(ownerId) && b.status == Status.WAITING ==> r.Ok?
    ensures approved && OwnerOf(b) == Some(ownerId) && b.status == Status.WAITING ==>
              (r.Ok? <==> !Conflicts(v, rows, ItemIdOf(b), b.start, b.end))
    ensures approved && OwnerOf(b) == Some(ownerId) && b.status == Status.WAITING
            && Conflicts(v, rows, ItemIdOf(b), b.start, b.end) ==>
              r == Err(IllegalState("overlaps with approved booking"))
  {
    if OwnerOf(b) != Some(ownerId) then Err(IllegalState("only owner can approve"))
    else if b.status != Status.WAITING then Err(IllegalState("already decided"))
    else if approved then
      if Conflicts(v, rows, ItemIdOf(b), b.start, b.end) then Err(IllegalState("overlaps with approved booking"))
      else Ok(b.(status := Status.APPROVED))
    else Ok(b.(status := Status.REJECTED))
  }

  /** `approve`: the booking must exist, then the decision. */
  function ApproveCheck(v: Version, rows: seq<Booking>, ownerId: int, bookingId: int, approved: bool): (r: Result<Booking>)
    ensures FindById(rows, bookingId).None? ==> r == Err(NotFound("booking not found"))
    ensures FindById(rows, bookingId).Some? ==> r == DecideCheck(v, rows, FindById(rows, bookingId).value, ownerId, approved)
  {
    match FindById(rows, bookingId)
    case None => Err(NotFound("booking not found"))
    case Some(b) => DecideCheck(v, rows, b, ownerId, approved)
  }

  /** `save` of a booking that has an id: the row with that id takes its
      place. */
  function Replace(rows: seq<Booking>, b: Booking): (r: seq<Booking>)
    ensures |r| == |rows|
    ensures forall i :: 0 <= i < |rows| ==> r[i] == if rows[i].id == b.id then b else rows[i]
  {
    seq(|rows|, i requires 0 <= i < |rows| => if rows[i].id == b.id then b else rows[i])
  }

  /** Every row has an id and no two rows share one. */
  predicate UniqueIds(rows: seq<Booking>) {
    (forall i :: 0 <= i < |rows| ==> rows[i].id.Some?)
    && forall i, j :: 0 <= i < j < |rows| ==> rows[i].id != rows[j].id
  }

  /** After a booking row is replaced, looking it up finds the new one. */
  lemma {:induction false} FindReplaced(rows: seq<Booking>, b: Booking, id: int)
    requires b.id == Some(id) && FindById(rows, id).Some?
    ensures FindById(Replace(rows, b), id) == Some(b)
  {
    if rows[0].id != Some(id) {
      FindReplaced(rows[1..], b, id);
      assert Replace(rows, b)[1..] == Replace(rows[1..], b);
    }
  }

  /** A decided booking stays decided: a second `approve` of it, by anyone,
      either way, is refused. */
  lemma DecideOnce(v: Version, rows: seq<Booking>, ownerId: int, bookingId: int, approved: bool,
                   caller: int, approved': bool)
    requires ApproveCheck(v, rows, ownerId, bookingId, approved).Ok?
    ensures var b := ApproveCheck(v, rows, ownerId, bookingId, approved).value;
            ApproveCheck(v, Replace(rows, b), caller, bookingId, approved').Err?
  {
    var b := ApproveCheck(v, rows, ownerId, bookingId, approved).value;
    FindReplaced(rows, b, bookingId);
  }

  /** The approved bookings of each item do not overlap. */
  predicate ApprovedDisjoint(rows: seq<Booking>) {
    forall i, j :: 0 <= i < |rows| && 0 <= j < |rows| && i != j
      && rows[i].status == Status.APPROVED && rows[j].status == Status.APPROVED
      && ItemIdOf(rows[i]).Some? && ItemIdOf(rows[i]) == ItemIdOf(rows[j])
      ==> !BookingStore.Overlaps(rows[i].start, rows[i].end, rows[j].start, rows[j].end)
  }

  /** With the corrected test, deciding on a stored booking keeps the
      approved bookings of every item pairwise disjoint. */
  lemma {:induction false} DecideCorrectedKeepsDisjoint(rows: seq<Booking>, k: nat, ownerId: int, approved: bool)
    requires UniqueIds(rows) && ApprovedDisjoint(rows) && k < |rows|
    requires DecideCheck(Corrected, rows, rows[k], ownerId, approved).Ok?
    ensures ApprovedDisjoint(Replace(rows, DecideCheck(Corrected, rows, rows[k], ownerId, approved).value))
  {
    var b := DecideCheck(Corrected, rows, rows[k], ownerId, approved).value;
    var rows' := Replace(rows, b);
    forall i | 0 <= i < |rows| ensures rows'[i] == if i == k then b else rows[i] {
    }
    forall i, j | 0 <= i < |rows'| && 0 <= j < |rows'| && i != j
      && rows'[i].status == Status.APPROVED && rows'[j].status == Status.APPROVED
      && ItemIdOf(rows'[i]).Some? && ItemIdOf(rows'[i]) == ItemIdOf(rows'[j])
      ensures !BookingStore.Overlaps(rows'[i].start, rows'[i].end, rows'[j].start, rows'[j].end)
    {
      if i == k {
        ConflictIntendedMeansOverlap(rows, ItemIdOf(b).value, b.start, b.end);
        assert rows[j].status == Status.APPROVED && ItemIdOf(rows[j]) == ItemIdOf(b);
      } else if j == k {
        ConflictIntendedMeansOverlap(rows, ItemIdOf(b).value, b.start, b.end);
        assert rows[i].status == Status.APPROVED && ItemIdOf(rows[i]) == ItemIdOf(b);
      }
    }
  }

  /** As written, approving a waiting booking [15, 25) beside an approved
      [10, 20) of the same item succeeds and leaves two overlapping approved
      bookings; the corrected test refuses it. */
  lemma DecideAsWrittenBreaksDisjoint()
    ensures var item := Item(Some(1), Some("drill"), None, Some(true), Some(7), None);
            var rows := [Booking(Some(0), 10, 20, Some(item), Some(8), Status.APPROVED),
                         Booking(Some(1), 15, 25, Some(item), Some(9), Status.WAITING)];
            UniqueIds(rows) && ApprovedDisjoint(rows)
            && ApproveCheck(AsWritten, rows, 7, 1, true).Ok?
            && !ApprovedDisjoint(Replace(rows, ApproveCheck(AsWritten, rows, 7, 1, true).value))
            && ApproveCheck(Corrected, rows, 7, 1, true) == Err(IllegalState("overlaps with approved booking"))
  {
    var item := Item(Some(1), Some("drill"), None, Some(true), Some(7), None);
    var rows := [Booking(Some(0), 10, 20, Some(item), Some(8), Status.APPROVED),
                 Booking(Some(1), 15, 25, Some(item), Some(9), Status.WAITING)];
    assert FindById(rows, 1) == Some(rows[1]);
    assert !ConflictAsWritten(rows, Some(1), 15, 25);
    assert ConflictIntended(rows, Some(1), 15, 25) by {
      assert ItemIdOf(rows[0]) == Some(1);
    }
    var rows' := Replace(rows, rows[1].(status := Status.APPROVED));
    assert rows'[0] == rows[0] && rows'[1] == rows[1].(status := Status.APPROVED);
  }

  /** `getStatusById`: the joined booking, visible to its item's owner and
      to its booker only. */
  function StatusCheck(rows: seq<Booking>, userId: int, bookingId: int): (r: Result<Booking>)
    ensures FindDetailedById(rows, bookingId).None? ==> r == Err(NotFound("Бронирование не найдено"))
    ensures r.Ok? <==> FindDetailedById(rows, bookingId).Some?
                       && var b := FindDetailedById(rows, bookingId).value;
                          OwnerOf(b) == Some(userId) || b.booker == Some(userId)
    ensures r.Ok? ==> r.value.id == Some(bookingId) && r.value in rows
    ensures r.Ok? ==> Some(r.value) == FindDetailedById(rows, bookingId)
    ensures FindDetailedById(rows, bookingId).Some? && r.Err? ==>
              r == Err(IllegalState("Нет доступа к этому бронированию"))
  {
    match FindDetailedById(rows, bookingId)
    case None => Err(NotFound("Бронирование не найдено"))
    case Some(b) =>
      var isOwner := OwnerOf(b) == Some(userId);
      var isBooker := b.booker == Some(userId);
      if !isOwner && !isBooker then Err(IllegalState("Нет доступа к этому бронированию"))
      else Ok(b)
  }

  /** The bookings a role covers: the user's own bookings for BOOKER, the
      bookings of the user's items for OWNER. */
  predicate InRole(role: Role, userId: int, b: Booking) {
    match role
    case BOOKER => b.booker == Some(userId)
    case OWNER => OwnerOf(b) == Some(userId)
  }

  /** What each state means at `now`: CURRENT bookings have started and not
      ended, PAST ones have ended, FUTURE ones have not started; WAITING and
      REJECTED go by status. */
  predicate InState(state: BookingState, b: Booking, now: int) {
    match state
    case ALL => true
    case CURRENT => b.start < now < b.end
    case PAST => b.end < now
    case FUTURE => now < b.start
    case WAITING => b.status == Status.WAITING
    case REJECTED => b.status == Status.REJECTED
  }

  /** The query `getBookings` runs for a role and a state: it selects exactly
      the bookings the role covers that are in the state. */
  function Dispatch(role: Role, state: BookingState, userId: int, now: int): (q: (Subject, Condition))
    ensures forall b :: Selects(q.0, q.1, b) <==> InRole(role, userId, b) && InState(state, b, now)
  {
    var subject := match role case BOOKER => ByBooker(userId) case OWNER => ByOwner(userId);
    var cond := match state
      case ALL => Anything
      case CURRENT => StartBeforeEndAfter(now, now)
      case PAST => EndBefore(now)
      case FUTURE => StartAfter(now)
      case WAITING => StatusIs(Status.WAITING)
      case REJECTED => StatusIs(Status.REJECTED);
    (subject, cond)
  }

  /** Different (role, state) pairs run different queries. */
  lemma DispatchInjective(role: Role, state: BookingState, role': Role, state': BookingState, userId: int, now: int)
    requires (role, state) != (role', state')
    ensures Dispatch(role, state, userId, now) != Dispatch(role', state', userId, now)
  {
  }

  /** CURRENT, PAST and FUTURE never overlap, and a booking with a nonempty
      window is in none of them exactly when `now` is its start or its end. */
  lemma StatesPartitionTime(b: Booking, now: int)
    requires b.start < b.end
    ensures var cur := Meets(StartBeforeEndAfter(now, now), b);
            var past := Meets(EndBefore(now), b);
            var fut := Meets(StartAfter(now), b);
            !(cur && past) && !(cur && fut) && !(past && fut)
            && (!cur && !past && !fut <==> now == b.start || now == b.end)
  {
  }

  /** `getBookings`: the user must exist; then page `from / size` of the
      dispatched query, latest start first. */
  function BookingsCheck(rows: seq<Booking>, users: set<int>, userId: int, role: Role, state: BookingState,
                         from: Int32, size: Int32, now: int): (r: Result<seq<Booking>>)
    ensures userId !in users ==> r == Err(NotFound("user not found"))
    ensures userId in users && FromOffset(from, size).Err? ==> r == Err(FromOffset(from, size).error)
    ensures r.Ok? <==> userId in users && FromOffset(from, size).Ok?
    ensures r.Ok? ==>
              var (subject, cond) := Dispatch(role, state, userId, now);
              IsPage(r.value, Selection(rows, subject, cond), FromOffset(from, size).value)
    ensures r.Ok? ==>
              |r.value| <= size
              && (forall i :: 0 <= i < |r.value| ==>
                    r.value[i] in rows && InRole(role, userId, r.value[i]) && InState(state, r.value[i], now))
              && (forall i, j :: 0 <= i < j < |r.value| ==> r.value[i].start >= r.value[j].start)
  {
    if userId !in users then Err(NotFound("user not found"))
    else
      var p :- FromOffset(from, size);
      var (subject, cond) := Dispatch(role, state, userId, now);
      Ok(FindPage(rows, subject, cond, p))
  }

  class Service {
    var bookings: seq<Booking>
    var nextId: int
    var users: set<int>
    var items: map<int, Item>

    /** Ids are unique and below the next one the table hands out, and the
        approved bookings of each item are pairwise disjoint. */
    ghost predicate Valid()
      reads this
    {
      UniqueIds(bookings) && (forall i :: 0 <= i < |bookings| ==> bookings[i].id.value < nextId)
      && ApprovedDisjoint(bookings)
    }

    constructor (users: set<int>, items: map<int, Item>)
      ensures Valid() && bookings == [] && nextId == 0 && this.users == users && this.items == items
    {
      bookings := [];
      nextId := 0;
      this.users := users;
      this.items := items;
    }

    /** `create`: on success exactly one WAITING booking is added, under a
        new id; on failure the table is unchanged. */
    method Create(userId: int, req: BookingRequest, now: int) returns (r: Result<Booking>)
      requires Valid()
      modifies this
      ensures Valid() && users == old(users) && items == old(items)
      ensures CreateCheck(Corrected, old(bookings), users, items, userId, req, now).Err? ==>
                r == CreateCheck(Corrected, old(bookings), users, items, userId, req, now)
                && bookings == old(bookings) && nextId == old(nextId)
      ensures CreateCheck(Corrected, old(bookings), users, items, userId, req, now).Ok? ==>
                r == Ok(CreateCheck(Corrected, old(bookings), users, items, userId, req, now).value.(id := Some(old(nextId))))
                && r.value.status == Status.WAITING
                && bookings == old(bookings) + [r.value] && nextId == old(nextId) + 1
    {
      r := CreateCheck(Corrected, bookings, users, items, userId, req, now);
      if r.Ok? {
        var saved := r.value.(id := Some(nextId));
        bookings := bookings + [saved];
        nextId := nextId + 1;
        r := Ok(saved);
      }
    }

    /** `approve`: on success the booking's row takes its new status and
        nothing else changes; on failure the table is unchanged. */
    method Approve(ownerId: int, bookingId: int, approved: bool) returns (r: Result<Booking>)
      requires Valid()
      modifies this
      ensures Valid() && nextId == old(nextId) && users == old(users) && items == old(items)
      ensures r == ApproveCheck(Corrected, old(bookings), ownerId, bookingId, approved)
      ensures r.Err? ==> bookings == old(bookings)
      ensures r.Ok? ==> bookings == Replace(old(bookings), r.value)
    {
      r := ApproveCheck(Corrected, bookings, ownerId, bookingId, approved);
      if r.Ok? {
        var b := r.value;
        var k :| 0 <= k < |bookings| && bookings[k] == FindById(bookings, bookingId).value;
        DecideCorrectedKeepsDisjoint(bookings, k, ownerId, approved);
        bookings := Replace(bookings, b);
        assert forall i :: 0 <= i < |bookings| ==> bookings[i].id == old(bookings)[i].id;
      }
    }

    /** `getStatusById`. */
    method GetStatusById(userId: int, bookingId: int) returns (r: Result<Booking>)
      ensures r.Ok? <==> FindDetailedById(bookings, bookingId).Some?
                         && var b := FindDetailedById(bookings, bookingId).value;
                            OwnerOf(b) == Some(userId) || b.booker == Some(userId)
      ensures r.Ok? ==> r.value.id == Some(bookingId) && r.value in bookings
      ensures r == StatusCheck(bookings, userId, bookingId)
    {
      r := StatusCheck(bookings, userId, bookingId);
    }

    /** `getBookings`. */
    method GetBookings(userId: int, role: Role, state: BookingState, from: Int32, size: Int32, now: int)
      returns (r: Result<seq<Booking>>)
      ensures r == BookingsCheck(bookings, users, userId, role, state, from, size, now)
    {
      r := BookingsCheck(bookings, users, userId, role, state, from, size, now);
    }
  }
}
