/** `ItemRepositoryImpl`: items held in a hash map keyed by id, with a
    generator that is incremented before use, so that ids run 1, 2, 3, ... */
module ItemStore {
  import opened Shared
  import opened Seqs
  import opened Text
  import opened Domain
  import opened MapSelect

  /** The sort key of `Comparator.comparing(Item::getId)`; every stored item
      has an id. */
  function IdKey(i: Item): int { i.id.GetOr(0) }

  /** The query `search` matches with: the text trimmed and lower-cased, a
      null text read as empty. */
  function Query(text: Option<string>): (q: string)
    ensures text.None? ==> q == ""
    ensures |q| == |Trim(text.GetOr(""))|
    ensures forall i :: 0 <= i < |q| ==> !('A' <= q[i] <= 'Z')
  {
    Lower(Trim(text.GetOr("")))
  }

  /** `contains(s, q)`: a null field never matches; otherwise the
      lower-cased field holds `q` somewhere. */
  function ContainsField(s: Option<string>, q: string): (r: bool)
    ensures r <==> s.Some? && exists i :: OccursAt(Lower(s.value), q, i)
  {
    s.Some? && Contains(Lower(s.value), q)
  }

  /** The two filters of `search`: available is exactly TRUE, and the name
      or the description contains the query. */
  predicate Matches(i: Item, q: string) {
    i.available == Some(true) && (ContainsField(i.name, q) || ContainsField(i.description, q))
  }

  function SearchFilter(q: string): Item -> bool {
    (i: Item) => Matches(i, q)
  }

  predicate OwnedBy(i: Item, ownerId: int) {
    i.owner == Some(ownerId)
  }

  /** Upper-casing the search text does not change the query: the search is
      case-insensitive. */
  lemma {:induction false} QueryIgnoresCase(text: string)
    ensures Query(Some(Upper(text))) == Query(Some(text))
  {
    TrimUpper(text);
    LowerUpper(Trim(text));
  }

  lemma LowerUpper(t: string)
    ensures Lower(Upper(t)) == Lower(t)
  {
    var a, b := Lower(Upper(t)), Lower(t);
    forall k | 0 <= k < |t| ensures a[k] == b[k] {
      LowerOfUpper(t[k]);
    }
  }

  lemma LowerOfUpper(c: char)
    ensures LowerChar(UpperChar(c)) == LowerChar(c)
  {
  }

  /** Upper-casing keeps every character at or below U+0020 and every
      character above it where it is, so it commutes with `trim`. */
  lemma {:induction false} TrimUpper(s: string)
    ensures Trim(Upper(s)) == Upper(Trim(s))
  {
    var u := Upper(s);
    var n := Lead(s);
    LeadUpper(s);
    var t := s[n..];
    UpperSlice(s, n, |s|);
    assert u[n..] == Upper(t);
    var m := End(t);
    EndUpper(t);
    UpperSlice(t, 0, m);
    TrimParts(u);
    TrimParts(s);
  }

  /** `Trim` as the two cuts it makes. */
  lemma TrimParts(s: string)
    ensures Trim(s) == s[Lead(s)..][..End(s[Lead(s)..])]
  {
  }

  /** Upper-casing a slice is slicing the upper-cased string. */
  lemma UpperSlice(s: string, i: nat, j: nat)
    requires i <= j <= |s|
    ensures Upper(s[i..j]) == Upper(s)[i..j]
  {
    assert |Upper(s[i..j])| == |Upper(s)[i..j]|;
    forall k | 0 <= k < j - i ensures Upper(s[i..j])[k] == Upper(s)[i..j][k] {
    }
  }

  lemma {:induction false} LeadUpper(s: string)
    ensures Lead(Upper(s)) == Lead(s)
  {
    if s != [] {
      UpperSlice(s, 1, |s|);
      LeadUpper(s[1..]);
    }
  }

  lemma {:induction false} EndUpper(s: string)
    ensures End(Upper(s)) == End(s)
  {
    if s != [] {
      UpperSlice(s, 0, |s| - 1);
      EndUpper(s[..|s| - 1]);
    }
  }

  class Store {
    var items: map<int, Item>
    var generator: nat

    /** Every item is stored under its own id. */
    ghost predicate Valid()
      reads this
    {
      forall k :: k in items ==> items[k].id == Some(k)
    }

    constructor ()
      ensures Valid() && items == map[] && generator == 0
    {
      items := map[];
      generator := 0;
    }

    /** `save`: an item without an id takes the incremented generator value. */
    method Save(item: Item) returns (saved: Item)
      requires Valid()
      modifies this
      ensures Valid()
      ensures item.id.Some? ==> saved == item && generator == old(generator)
      ensures item.id.None? ==> generator == old(generator) + 1 && saved == item.(id := Some(generator))
      ensures items == old(items)[saved.id.value := saved]
    {
      saved := item;
      if item.id.None? {
        generator := generator + 1;
        saved := item.(id := Some(generator));
      }
      items := items[saved.id.value := saved];
    }

    /** `findById`. */
    function FindById(id: int): (r: Option<Item>)
      requires Valid()
      reads this
      ensures r.Some? <==> id in items
      ensures r.Some? ==> r.value == items[id] && r.value.id == Some(id)
    {
      if id in items then Some(items[id]) else None
    }

    /** `findAllByOwner`: that owner's items, by increasing id. */
    method FindAllByOwner(ownerId: int) returns (r: seq<Item>)
      requires Valid()
      ensures SortedBy(r, IdKey)
      ensures multiset(r) == Picked(items, (i: Item) => OwnedBy(i, ownerId))
      ensures forall x :: x in r <==> x in items.Values && OwnedBy(x, ownerId)
    {
      var p := (i: Item) => OwnedBy(i, ownerId);
      r := SelectSorted(items, p, IdKey);
      forall x ensures x in r <==> x in items.Values && p(x) {
        SelectedMembers(items, p, r, x);
      }
    }

    /** `search`: nothing for a query that is empty once trimmed; otherwise
        the available items whose name or description contains it, ignoring
        case, by increasing id. */
    method Search(text: Option<string>) returns (r: seq<Item>)
      requires Valid()
      ensures Query(text) == [] ==> r == []
      ensures Query(text) != [] ==> SortedBy(r, IdKey)
      ensures Query(text) != [] ==> multiset(r) == Picked(items, SearchFilter(Query(text)))
      ensures forall x :: x in r <==> Query(text) != [] && x in items.Values && Matches(x, Query(text))
      ensures forall i :: 0 <= i < |r| ==> r[i].available == Some(true)
    {
      var q := Query(text);
      if q == [] {
        r := [];
      } else {
        var p := SearchFilter(q);
        r := SelectSorted(items, p, IdKey);
        forall x ensures x in r <==> x in items.Values && p(x) {
          SelectedMembers(items, p, r, x);
        }
        forall i | 0 <= i < |r| ensures r[i].available == Some(true) {
          assert p(r[i]);
        }
      }
    }

    /** `deleteById`: removes that key and nothing else. */
    method DeleteById(id: int)
      requires Valid()
      modifies this
      ensures Valid()
      ensures items == old(items) - {id} && generator == old(generator)
    {
      items := items - {id};
    }
  }
}
