/** `ItemRequestServiceImpl` (server): a request with the items that answer
    it, a user's own requests, and the paged listing of other users'
    requests, each with its answers, over the JPA tables of users, requests
    and items. */
module ItemRequestService {
  import opened Shared
  import opened Seqs
  import opened Paging
  import opened Domain
  import RequestStore

  /** `RequestItemAnswerDto`: an answering item and its owner's id. */
  datatype Answer = Answer(id: Option<int>, name: Option<string>, ownerId: Option<int>)

  /** `ItemRequestDto`: the request and its answers; `items` stays null
      where the service does not set it. */
  datatype RequestView = RequestView(request: ItemRequest, items: Option<seq<Answer>>)

  /** An answer carries the item's id and name and its owner's id, or null
      when the item has no owner. */
  function AnswerOf(it: Item): (a: Answer)
    ensures a.id == it.id && a.name == it.name
    ensures a.ownerId.Some? <==> it.owner.Some?
    ensures it.owner.Some? ==> a.ownerId.value == it.owner.value
  {
    Answer(it.id, it.name, if it.owner.Some? then Some(it.owner.value) else None)
  }

  function AnswersOf(its: seq<Item>): (r: seq<Answer>)
    ensures |r| == |its| && forall i :: 0 <= i < |its| ==> r[i] == AnswerOf(its[i])
  {
    seq(|its|, i requires 0 <= i < |its| => AnswerOf(its[i]))
  }

  /** `requestRepository.findById` on the requests table. */
  function FindRequest(requests: seq<ItemRequest>, id: int): Option<ItemRequest> {
    FindBy(requests, IdOfRequest, id)
  }

  /** The grouping key `Item::getRequest`; the items it is applied to all
      answer some request. */
  function RequestKey(it: Item): int { it.request.GetOr(0) }

  function Answering(id: int): Item -> bool {
    (it: Item) => it.request == Some(id)
  }

  function AnsweringAny(ids: seq<int>): Item -> bool {
    (it: Item) => it.request.Some? && it.request.value in ids
  }

  /** `itemRepository.findByRequest`: the items answering one request. */
  function ItemsFor(items: seq<Item>, requestId: int): (r: seq<Item>)
    ensures forall x :: x in r <==> x in items && x.request == Some(requestId)
    ensures forall x :: multiset(r)[x] == if x.request == Some(requestId) then multiset(items)[x] else 0
  {
    var r := Filter(items, Answering(requestId));
    forall x ensures x in r <==> x in items && Answering(requestId)(x) {
      FilterMembers(items, Answering(requestId), x);
    }
    r
  }

  /** `getById`: the user is checked before the request; then the request
      with the items answering it. */
  function GetById(users: set<int>, requests: seq<ItemRequest>, items: seq<Item>,
                   userId: int, requestId: int): (r: Result<RequestView>)
    ensures userId !in users ==> r == Err(NotFound("user not found"))
    ensures userId in users && FindRequest(requests, requestId).None? ==> r == Err(NotFound("request not found"))
    ensures r.Ok? <==> userId in users && FindRequest(requests, requestId).Some?
    ensures r.Ok? ==> r.value.request == FindRequest(requests, requestId).value
                      && r.value.items == Some(AnswersOf(ItemsFor(items, requestId)))
  {
    if userId !in users then Err(NotFound("user not found"))
    else match FindRequest(requests, requestId)
      case None => Err(NotFound("request not found"))
      case Some(q) => Ok(RequestView(q, Some(AnswersOf(ItemsFor(items, requestId)))))
  }

  function ByRequestor(userId: int): ItemRequest -> bool {
    (q: ItemRequest) => q.requestor == userId
  }

  /** `getOwn`: the user must exist; then that user's requests, without
      answers. */
  function GetOwn(users: set<int>, requests: seq<ItemRequest>, userId: int): (r: Result<seq<RequestView>>)
    ensures r.Err? <==> userId !in users
    ensures r.Err? ==> r.error == NotFound("user not found")
    ensures r.Ok? ==>
              forall v :: v in r.value <==> v.items.None? && v.request in requests && v.request.requestor == userId
    ensures r.Ok? ==>
              var own := Filter(requests, ByRequestor(userId));
              |r.value| == |own| && forall i :: 0 <= i < |own| ==> r.value[i] == RequestView(own[i], None)
    ensures r.Ok? ==>
              forall q :: multiset(Requests(r.value))[q] == if q.requestor == userId then multiset(requests)[q] else 0
  {
    if userId !in users then Err(NotFound("user not found"))
    else
      var own := Filter(requests, ByRequestor(userId));
      var r := Unanswered(own);
      forall v ensures v in r <==> v.items.None? && v.request in requests && v.request.requestor == userId {
        FilterMembers(requests, ByRequestor(userId), v.request);
      }
      assert forall q :: multiset(own)[q] == if ByRequestor(userId)(q) then multiset(requests)[q] else 0;
      Ok(r)
  }

  /** Views of the requests without answers (`items` left null), in order. */
  function Unanswered(qs: seq<ItemRequest>): (r: seq<RequestView>)
    ensures |r| == |qs| && forall i :: 0 <= i < |qs| ==> r[i] == RequestView(qs[i], None)
    ensures Requests(r) == qs
    ensures forall v :: v in r <==> v.items.None? && v.request in qs
  {
    var r := seq(|qs|, i requires 0 <= i < |qs| => RequestView(qs[i], None));
    forall v ensures v in r <==> v.items.None? && v.request in qs {
      if v.items.None? && v.request in qs {
        var i :| 0 <= i < |qs| && qs[i] == v.request;
        assert r[i] == v;
      }
    }
    assert Requests(r) == qs;
    r
  }

  /** The requests a list of views shows, in order. */
  function Requests(vs: seq<RequestView>): (r: seq<ItemRequest>)
    ensures |r| == |vs| && forall i :: 0 <= i < |vs| ==> r[i] == vs[i].request
  {
    seq(|vs|, i requires 0 <= i < |vs| => vs[i].request)
  }

  function NotByRequestor(userId: int): ItemRequest -> bool {
    (q: ItemRequest) => q.requestor != userId
  }

  /** The requests of every other user, newest first. */
  function Others(requests: seq<ItemRequest>, userId: int): (r: seq<ItemRequest>)
    ensures forall q :: multiset(r)[q] == if q.requestor != userId then multiset(requests)[q] else 0
    ensures forall i, j :: 0 <= i < j < |r| ==> r[i].created >= r[j].created
  {
    var others := Filter(requests, NotByRequestor(userId));
    var sorted := SortBy(others, RequestStore.NewestCreated);
    RequestStore.NewestCreatedFirst(sorted);
    assert forall q :: multiset(others)[q] == if NotByRequestor(userId)(q) then multiset(requests)[q] else 0;
    sorted
  }

  /** `findByRequestorNot(userId, page)` sorted by `created` descending: the
      page cut out of the other users' requests, newest first. */
  function OthersPage(requests: seq<ItemRequest>, userId: int, p: PageRequest): (r: seq<ItemRequest>)
    ensures IsPage(r, Others(requests, userId), p)
    ensures forall i :: 0 <= i < |r| ==> r[i] in requests && r[i].requestor != userId
    ensures forall i, j :: 0 <= i < j < |r| ==> r[i].created >= r[j].created
  {
    var sorted := Others(requests, userId);
    var r := Content(sorted, p);
    forall i | 0 <= i < |r| ensures r[i] in requests && r[i].requestor != userId {
      assert r[i] == sorted[Offset(p) + i];
      assert multiset(sorted)[r[i]] > 0;
    }
    r
  }

  /** The ids of the page's requests: `map(ItemRequest::getId)`. */
  function RequestIds(reqs: seq<ItemRequest>): seq<int> {
    Keys(reqs, IdOfRequest)
  }

  /** One entry of the listing: the request with its group of answering
      items, or none. */
  function OthersView(q: ItemRequest, groups: map<int, seq<Item>>): RequestView {
    var its := if q.id.Some? && q.id.value in groups then groups[q.id.value] else [];
    RequestView(q, Some(AnswersOf(its)))
  }

  /** The listing of the requests of one page: `findByRequestIn` grouped by
      request id. */
  function PageViews(page: seq<ItemRequest>, items: seq<Item>): (r: seq<RequestView>)
    ensures |r| == |page| && forall i :: 0 <= i < |page| ==> r[i].request == page[i] && r[i].items.Some?
  {
    var ids := RequestIds(page);
    var groups := GroupBy(Filter(items, AnsweringAny(ids)), RequestKey);
    seq(|page|, i requires 0 <= i < |page| => OthersView(page[i], groups))
  }

  /** `getAllOthers`: a size of zero or less answers null before any query;
      otherwise page `from / size` of the other users' requests, newest
      first, one entry per request of the page, in page order. */
  function GetAllOthers(requests: seq<ItemRequest>, items: seq<Item>, userId: int, from: Int32, size: Int32)
    : (r: Result<Option<seq<RequestView>>>)
    ensures size <= 0 ==> r == Ok(None)
    ensures r.Ok? <==> size <= 0 || FromOffset(from, size).Ok?
    ensures 0 < size && FromOffset(from, size).Err? ==> r == Err(FromOffset(from, size).error)
    ensures r.Ok? && 0 < size ==>
              r.value == Some(PageViews(OthersPage(requests, userId, FromOffset(from, size).value), items))
  {
    if size <= 0 then Ok(None)
    else
      var p :- FromOffset(from, size);
      var page := OthersPage(requests, userId, p);
      if page == [] then Ok(Some([]))
      else Ok(Some(PageViews(page, items)))
  }

  /** Each request of the page carries exactly the items answering it, in
      table order; a request without an id carries none. */
  lemma PageViewAnswers(page: seq<ItemRequest>, items: seq<Item>, i: nat)
    requires i < |page|
    ensures var v := PageViews(page, items)[i];
            v.items == Some(AnswersOf(if page[i].id.Some? then ItemsFor(items, page[i].id.value) else []))
  {
    var ids := RequestIds(page);
    var found := Filter(items, AnsweringAny(ids));
    if page[i].id.Some? {
      var k := page[i].id.value;
      GroupByMeaning(found, RequestKey, k);
      WithKeyOfFilter(items, AnsweringAny(ids), RequestKey, k);
      FilterSame(items, AndKey(AnsweringAny(ids), RequestKey, k), Answering(k));
    }
  }

  /** Two conditions that agree on every element select the same elements. */
  lemma {:induction false} FilterSame(s: seq<Item>, p: Item -> bool, q: Item -> bool)
    requires forall i :: 0 <= i < |s| ==> p(s[i]) == q(s[i])
    ensures Filter(s, p) == Filter(s, q)
  {
    if s != [] {
      FilterSame(s[..|s| - 1], p, q);
    }
  }
}
