/** `BookingRepositoryImpl`: bookings held in a hash map keyed by id, with a
    counter that hands out ids 0, 1, 2, ... to bookings saved without one. */
module BookingStore {
  import opened Shared
  import opened Seqs
  import opened Domain
  import opened MapSelect

  /** `overlaps`: the half-open windows [aStart, aEnd) and [bStart, bEnd)
      intersect. */
  predicate Overlaps(aStart: int, aEnd: int, bStart: int, bEnd: int) {
    aStart < bEnd && bStart < aEnd
  }

  lemma OverlapsSymmetric(aStart: int, aEnd: int, bStart: int, bEnd: int)
    ensures Overlaps(aStart, aEnd, bStart, bEnd) <==> Overlaps(bStart, bEnd, aStart, aEnd)
  {
  }

  /** Windows that only touch, one ending where the next starts, do not overlap. */
  lemma TouchingDoNotOverlap(aStart: int, aEnd: int, bEnd: int)
    ensures !Overlaps(aStart, aEnd, aEnd, bEnd)
  {
  }

  /** For nonempty windows, overlapping means sharing an instant. */
  lemma OverlapsIffCommonInstant(aStart: int, aEnd: int, bStart: int, bEnd: int)
    requires aStart < aEnd && bStart < bEnd
    ensures Overlaps(aStart, aEnd, bStart, bEnd) <==> exists t :: Within(t, aStart, aEnd) && Within(t, bStart, bEnd)
  {
    if Overlaps(aStart, aEnd, bStart, bEnd) {
      var t := if aStart < bStart then bStart else aStart;
      assert Within(t, aStart, aEnd) && Within(t, bStart, bEnd);
    }
  }

  /** The instant `t` lies in the half-open window [start, end). */
  predicate Within(t: int, start: int, end: int) {
    start <= t < end
  }

  /** The sort key of `Comparator.comparing(Booking::getStart)`. */
  function StartKey(b: Booking): int { b.start }

  /** The rows `hasApprovedOverlap(itemId, start, end)` looks for. */
  predicate ApprovedOverlap(b: Booking, itemId: int, start: int, end: int) {
    ItemIdOf(b) == Some(itemId) && b.status == APPROVED && Overlaps(b.start, b.end, start, end)
  }

  class Store {
    var store: map<int, Booking>
    var counter: nat

    /** Every booking is stored under its own id. */
    ghost predicate Valid()
      reads this
    {
      forall k :: k in store ==> store[k].id == Some(k)
    }

    constructor ()
      ensures Valid() && store == map[] && counter == 0
    {
      store := map[];
      counter := 0;
    }

    /** `create`: a booking without an id takes the next counter value; the
        booking is put under its id, replacing any booking stored there. */
    method Create(b: Booking) returns (saved: Booking)
      requires Valid()
      modifies this
      ensures Valid()
      ensures b.id.Some? ==> saved == b && counter == old(counter)
      ensures b.id.None? ==> saved == b.(id := Some(old(counter))) && counter == old(counter) + 1
      ensures store == old(store)[saved.id.value := saved]
      ensures forall k :: k in old(store) && k != saved.id.value ==> k in store && store[k] == old(store)[k]
    {
      saved := b;
      if b.id.None? {
        saved := b.(id := Some(counter));
        counter := counter + 1;
      }
      store := store[saved.id.value := saved];
    }

    /** `findById`. */
    function FindById(id: int): (r: Option<Booking>)
      requires Valid()
      reads this
      ensures r.Some? <==> id in store
      ensures r.Some? ==> r.value == store[id] && r.value.id == Some(id)
    {
      if id in store then Some(store[id]) else None
    }

    /** `findAllByBookerId`: the bookings of that booker, earliest start first. */
    method FindAllByBookerId(bookerId: int) returns (r: seq<Booking>)
      ensures SortedBy(r, StartKey)
      ensures multiset(r) == Picked(store, (b: Booking) => b.booker == Some(bookerId))
      ensures forall x :: x in r <==> x in store.Values && x.booker == Some(bookerId)
    {
      var p := (b: Booking) => b.booker == Some(bookerId);
      r := SelectSorted(store, p, StartKey);
      forall x ensures x in r <==> x in store.Values && p(x) {
        SelectedMembers(store, p, r, x);
      }
    }

    /** `findAllOwnerId`: the bookings of that owner's items, earliest start
        first; a booking without an item or an item without an owner is
        nobody's. */
    method FindAllOwnerId(ownerId: int) returns (r: seq<Booking>)
      ensures SortedBy(r, StartKey)
      ensures multiset(r) == Picked(store, (b: Booking) => OwnerOf(b) == Some(ownerId))
      ensures forall x :: x in r <==> x in store.Values && OwnerOf(x) == Some(ownerId)
    {
      var p := (b: Booking) => OwnerOf(b) == Some(ownerId);
      r := SelectSorted(store, p, StartKey);
      forall x ensures x in r <==> x in store.Values && p(x) {
        SelectedMembers(store, p, r, x);
      }
    }

    /** `hasApprovedOverlap`: some APPROVED booking of the item overlaps the
        window [start, end). */
    method HasApprovedOverlap(itemId: int, start: int, end: int) returns (r: bool)
      ensures r <==> exists b :: b in store.Values && ApprovedOverlap(b, itemId, start, end)
    {
      r := AnyValue(store, (b: Booking) => ApprovedOverlap(b, itemId, start, end));
    }
  }
}
