/** `RequestRepositoryImpl`: item requests held in a hash map keyed by id,
    with a counter that hands out ids 0, 1, 2, ... */
module RequestStore {
  import opened Shared
  import opened Seqs
  import opened Domain
  import opened MapSelect

  /** The sort key of `comparing(ItemRequest::getCreated).reversed()`: the
      newest request first. */
  function NewestCreated(r: ItemRequest): int { -r.created }

  /** Newest first, stated on `created` itself. */
  lemma NewestCreatedFirst(rs: seq<ItemRequest>)
    requires SortedBy(rs, NewestCreated)
    ensures forall i, j :: 0 <= i < j < |rs| ==> rs[i].created >= rs[j].created
  {
    forall i, j | 0 <= i < j < |rs| ensures rs[i].created >= rs[j].created {
      assert NewestCreated(rs[i]) <= NewestCreated(rs[j]);
    }
  }

  class Store {
    var store: map<int, ItemRequest>
    var counter: nat

    /** Every request is stored under its own id. */
    ghost predicate Valid()
      reads this
    {
      forall k :: k in store ==> store[k].id == Some(k)
    }

    constructor ()
      ensures Valid() && store == map[] && counter == 0
    {
      store := map[];
      counter := 0;
    }

    /** `save`: a request without an id takes the next counter value. */
    method Save(request: ItemRequest) returns (saved: ItemRequest)
      requires Valid()
      modifies this
      ensures Valid()
      ensures request.id.Some? ==> saved == request && counter == old(counter)
      ensures request.id.None? ==> saved == request.(id := Some(old(counter))) && counter == old(counter) + 1
      ensures store == old(store)[saved.id.value := saved]
    {
      saved := request;
      if request.id.None? {
        saved := request.(id := Some(counter));
        counter := counter + 1;
      }
      store := store[saved.id.value := saved];
    }

    /** `update` is a stub: it answers null and changes nothing. */
    method Update(id: int) returns (r: Option<ItemRequest>)
      ensures r.None?
    {
      r := None;
    }

    /** `findById`. */
    function FindById(id: int): (r: Option<ItemRequest>)
      requires Valid()
      reads this
      ensures r.Some? <==> id in store
      ensures r.Some? ==> r.value == store[id] && r.value.id == Some(id)
    {
      if id in store then Some(store[id]) else None
    }

    /** `findByRequestorId`: that user's requests, newest first. */
    method FindByRequestorId(requestorId: int) returns (r: seq<ItemRequest>)
      ensures forall i, j :: 0 <= i < j < |r| ==> r[i].created >= r[j].created
      ensures multiset(r) == Picked(store, (q: ItemRequest) => q.requestor == requestorId)
      ensures forall x :: x in r <==> x in store.Values && x.requestor == requestorId
    {
      var p := (q: ItemRequest) => q.requestor == requestorId;
      r := SelectSorted(store, p, NewestCreated);
      NewestCreatedFirst(r);
      forall x ensures x in r <==> x in store.Values && p(x) {
        SelectedMembers(store, p, r, x);
      }
    }

    /** `findAll`: every request, newest first. */
    method FindAll() returns (r: seq<ItemRequest>)
      ensures forall i, j :: 0 <= i < j < |r| ==> r[i].created >= r[j].created
      ensures multiset(r) == Picked(store, (q: ItemRequest) => true)
      ensures forall x :: x in r <==> x in store.Values
    {
      var p := (q: ItemRequest) => true;
      r := SelectSorted(store, p, NewestCreated);
      NewestCreatedFirst(r);
      forall x ensures x in r <==> x in store.Values {
        SelectedMembers(store, p, r, x);
      }
    }
  }
}
