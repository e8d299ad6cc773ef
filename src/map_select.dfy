/** Streams over the values of a hash map, as the in-memory repositories run
    them: `values().stream().filter(p).sorted(comparing(key)).toList()` and
    `values().stream().anyMatch(p)`. A hash map has no defined iteration
    order, so the loops below visit the keys in an arbitrary order. */
module MapSelect {
  import opened Seqs

  /** The values of `m` that satisfy `p`, each counted once per key that
      holds it. */
  ghost function Picked<T(!new)>(m: map<int, T>, p: T -> bool): multiset<T>
    decreases |m.Keys|
  {
    if m.Keys == {} then multiset{}
    else
      var k := AnyKey(m.Keys);
      Single(m[k], p) + Picked(m - {k}, p)
  }

  /** Some key of a nonempty key set: the key a hash map's iterator happens
      to visit first. */
  ghost function AnyKey(keys: set<int>): (k: int)
    requires keys != {}
    ensures k in keys
  {
    NonEmpty(keys);
    var k :| k in keys;
    k
  }

  /** A nonempty key set has a member. */
  lemma NonEmpty(keys: set<int>)
    requires keys != {}
    ensures exists k :: k in keys
  {
    if forall k :: k !in keys {
      assert false;
    }
  }

  function Single<T>(x: T, p: T -> bool): multiset<T> {
    if p(x) then multiset{x} else multiset{}
  }

  /** `Picked` may take the keys in any order: any key can be split off first. */
  lemma {:induction false} PickedSplit<T(!new)>(m: map<int, T>, p: T -> bool, k: int)
    requires k in m
    ensures Picked(m, p) == Single(m[k], p) + Picked(m - {k}, p)
    decreases |m.Keys|
  {
    var j := AnyKey(m.Keys);
    assert Picked(m, p) == Single(m[j], p) + Picked(m - {j}, p);
    if j != k {
      var mj, mk := m - {j}, m - {k};
      assert mj.Keys == m.Keys - {j} && mk.Keys == m.Keys - {k};
      PickedSplit(mj, p, k);
      PickedSplit(mk, p, j);
      MinusBoth(m, j, k);
    }
  }

  lemma MinusBoth<T>(m: map<int, T>, j: int, k: int)
    ensures m - {j} - {k} == m - {k} - {j}
  {
  }

  /** A value is picked exactly when it is one of the map's values and
      satisfies `p`. */
  lemma {:induction false} PickedMembers<T(!new)>(m: map<int, T>, p: T -> bool, x: T)
    ensures x in Picked(m, p) <==> p(x) && x in m.Values
    decreases |m.Keys|
  {
    if m.Keys != {} {
      var k := AnyKey(m.Keys);
      var rest := m - {k};
      PickedSplit(m, p, k);
      PickedMembers(rest, p, x);
      assert m[k] in m.Values;
      if x in m.Values {
        ValueHasKey(m, x);
        var j :| j in m && m[j] == x;
        if j != k {
          assert j in rest && rest[j] == x;
          assert x in rest.Values;
        }
      }
      assert x in rest.Values ==> x in m.Values by {
        if x in rest.Values {
          ValueHasKey(rest, x);
        }
      }
    }
  }

  /** Every value of a map is held by some key. */
  lemma ValueHasKey<T>(m: map<int, T>, x: T)
    requires x in m.Values
    ensures exists k :: k in m && m[k] == x
  {
    if forall k :: k in m ==> m[k] != x {
      assert false;
    }
  }

  /** The filter-and-sort pipeline: the values satisfying `p`, ordered by
      `key`, smallest first. */
  method SelectSorted<T(!new)>(m: map<int, T>, p: T -> bool, key: T -> int) returns (r: seq<T>)
    ensures SortedBy(r, key)
    ensures multiset(r) == Picked(m, p)
  {
    r := [];
    var rest := m;
    while rest.Keys != {}
      invariant SortedBy(r, key)
      invariant multiset(r) + Picked(rest, p) == Picked(m, p)
      decreases |rest.Keys|
    {
      NonEmpty(rest.Keys);
      var k :| k in rest.Keys;
      PickedSplit(rest, p, k);
      if p(rest[k]) {
        r := Insert(r, rest[k], key);
      }
      rest := rest - {k};
    }
  }

  /** What `SelectSorted` returns holds exactly the values of `m` satisfying
      `p`. */
  lemma SelectedMembers<T(!new)>(m: map<int, T>, p: T -> bool, r: seq<T>, x: T)
    requires multiset(r) == Picked(m, p)
    ensures x in r <==> x in m.Values && p(x)
  {
    PickedMembers(m, p, x);
    assert x in r <==> x in multiset(r);
  }

  /** `anyMatch(p)` over the values of `m`. */
  method AnyValue<T(==)>(m: map<int, T>, p: T -> bool) returns (r: bool)
    ensures r <==> exists x :: x in m.Values && p(x)
  {
    r := false;
    var rest := m;
    while rest.Keys != {} && !r
      invariant rest.Keys <= m.Keys
      invariant forall k :: k in rest ==> rest[k] == m[k]
      invariant r <==> exists k :: k in m && k !in rest && p(m[k])
      decreases |rest.Keys|
    {
      NonEmpty(rest.Keys);
      var k :| k in rest.Keys;
      r := p(rest[k]);
      rest := rest - {k};
    }
    if r {
      var k :| k in m && k !in rest && p(m[k]);
      assert m[k] in m.Values;
    } else {
      forall x | x in m.Values ensures !p(x) {
        ValueHasKey(m, x);
      }
    }
  }
}
