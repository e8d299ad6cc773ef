/** The stream operations the source composes its queries from: `filter`,
    a stable `sorted` by an integer key, and `Collectors.groupingBy`. */
module Seqs {
  import opened Shared

  /** `stream().filter(p).toList()`: the elements satisfying `p`, in order. */
  function Filter<T(!new)>(s: seq<T>, p: T -> bool): (r: seq<T>)
    ensures |r| <= |s|
    ensures forall x :: multiset(r)[x] == if p(x) then multiset(s)[x] else 0
    ensures forall i :: 0 <= i < |r| ==> p(r[i]) && r[i] in s
  {
    if s == [] then []
    else
      var init, last := s[..|s| - 1], s[|s| - 1];
      assert s == init + [last];
      Filter(init, p) + if p(last) then [last] else []
  }

  lemma FilterMembers<T(!new)>(s: seq<T>, p: T -> bool, x: T)
    ensures x in Filter(s, p) <==> x in s && p(x)
  {
    assert x in Filter(s, p) <==> multiset(Filter(s, p))[x] > 0;
    assert x in s <==> multiset(s)[x] > 0;
  }

  /** `s` is ordered by `key`, smallest first. */
  predicate SortedBy<T>(s: seq<T>, key: T -> int) {
    forall i, j :: 0 <= i < j < |s| ==> key(s[i]) <= key(s[j])
  }

  /** Inserts `x` after every element whose key is at most its own, so that
      elements with equal keys keep their order of arrival. */
  function Insert<T>(s: seq<T>, x: T, key: T -> int): (r: seq<T>)
    requires SortedBy(s, key)
    ensures SortedBy(r, key)
    ensures multiset(r) == multiset(s) + multiset{x}
    ensures |r| == |s| + 1
    ensures r[0] == x || (s != [] && r[0] == s[0])
  {
    if s == [] then [x]
    else if key(x) < key(s[0]) then [x] + s
    else
      var rest := Insert(s[1..], x, key);
      HeadBelow(s, x, key, rest);
      SortedCons(s[0], rest, key);
      assert s == [s[0]] + s[1..];
      [s[0]] + rest
  }

  /** Everything a sorted sequence's tail holds, and anything ranked no lower
      than its head, ranks no lower than its head. */
  lemma HeadBelow<T>(s: seq<T>, x: T, key: T -> int, rest: seq<T>)
    requires s != [] && SortedBy(s, key) && key(s[0]) <= key(x)
    requires multiset(rest) == multiset(s[1..]) + multiset{x}
    ensures forall j :: 0 <= j < |rest| ==> key(s[0]) <= key(rest[j])
  {
    forall j | 0 <= j < |rest| ensures key(s[0]) <= key(rest[j]) {
      assert rest[j] in multiset(rest);
      if rest[j] != x {
        assert rest[j] in multiset(s[1..]);
        var m :| 0 <= m < |s[1..]| && s[1..][m] == rest[j];
        assert s[m + 1] == rest[j];
      }
    }
  }

  lemma SortedCons<T>(h: T, rest: seq<T>, key: T -> int)
    requires SortedBy(rest, key) && forall j :: 0 <= j < |rest| ==> key(h) <= key(rest[j])
    ensures SortedBy([h] + rest, key)
  {
    var r := [h] + rest;
    assert forall i :: 0 < i < |r| ==> r[i] == rest[i - 1];
  }

  /** A stable sort by `key`, ascending: Java's `sorted(Comparator.comparing(key))`. */
  function SortBy<T>(s: seq<T>, key: T -> int): (r: seq<T>)
    ensures SortedBy(r, key)
    ensures multiset(r) == multiset(s)
    ensures |r| == |s|
  {
    if s == [] then []
    else
      var init, last := s[..|s| - 1], s[|s| - 1];
      assert s == init + [last];
      Insert(SortBy(init, key), last, key)
  }

  /** The elements of `s` whose key is `k`, in order: one group of
      `Collectors.groupingBy(key)`. */
  function WithKey<T(!new)>(s: seq<T>, key: T -> int, k: int): (r: seq<T>)
    ensures |r| <= |s|
    ensures forall i :: 0 <= i < |r| ==> key(r[i]) == k && r[i] in s
    ensures forall x :: key(x) == k ==> multiset(r)[x] == multiset(s)[x]
  {
    if s == [] then []
    else
      assert s == [s[0]] + s[1..];
      (if key(s[0]) == k then [s[0]] else []) + WithKey(s[1..], key, k)
  }

  /** `Collectors.groupingBy(key)`: one entry per key that occurs, holding the
      elements with that key in encounter order. */
  function GroupBy<T(!new)>(s: seq<T>, key: T -> int): map<int, seq<T>>
  {
    if s == [] then map[]
    else
      var g := GroupBy(s[1..], key);
      var k := key(s[0]);
      g[k := [s[0]] + if k in g then g[k] else []]
  }

  /** A key has an entry exactly when some element carries it, and the entry
      holds exactly the elements with that key, in order; so
      `getOrDefault(k, List.of())` is `WithKey(s, key, k)` for every `k`. */
  lemma {:induction false} GroupByMeaning<T(!new)>(s: seq<T>, key: T -> int, k: int)
    ensures k in GroupBy(s, key) <==> WithKey(s, key, k) != []
    ensures (if k in GroupBy(s, key) then GroupBy(s, key)[k] else []) == WithKey(s, key, k)
  {
    if s != [] {
      GroupByMeaning(s[1..], key, k);
    }
  }

  /** Grouping distributes over concatenation. */
  lemma {:induction false} WithKeyAppend<T(!new)>(a: seq<T>, b: seq<T>, key: T -> int, k: int)
    ensures WithKey(a + b, key, k) == WithKey(a, key, k) + WithKey(b, key, k)
  {
    if a == [] {
      assert a + b == b;
      assert WithKey(a, key, k) == [];
    } else {
      WithKeyAppend(a[1..], b, key, k);
      var h := if key(a[0]) == k then [a[0]] else [];
      var x, y := WithKey(a[1..], key, k), WithKey(b, key, k);
      SplitHead(a, b);
      WithKeyCons(a[0], a[1..] + b, key, k);
      WithKeyCons(a[0], a[1..], key, k);
      Assoc(h, x, y);
    }
  }

  lemma SplitHead<T>(a: seq<T>, b: seq<T>)
    requires a != []
    ensures a == [a[0]] + a[1..] && a + b == [a[0]] + (a[1..] + b)
  {
  }

  lemma Assoc<T>(h: seq<T>, x: seq<T>, y: seq<T>)
    ensures h + (x + y) == (h + x) + y
  {
  }

  lemma WithKeyCons<T(!new)>(x: T, s: seq<T>, key: T -> int, k: int)
    ensures WithKey([x] + s, key, k) == (if key(x) == k then [x] else []) + WithKey(s, key, k)
  {
    assert ([x] + s)[0] == x && ([x] + s)[1..] == s;
  }

  /** `p` and a key equal to `k`. */
  function AndKey<T>(p: T -> bool, key: T -> int, k: int): T -> bool {
    x => p(x) && key(x) == k
  }

  /** The group `k` of a filtered sequence is the sequence filtered by both
      conditions, in the same order. */
  lemma {:induction false} WithKeyOfFilter<T(!new)>(s: seq<T>, p: T -> bool, key: T -> int, k: int)
    ensures WithKey(Filter(s, p), key, k) == Filter(s, AndKey(p, key, k))
  {
    if s != [] {
      var init, last := s[..|s| - 1], s[|s| - 1];
      WithKeyOfFilter(init, p, key, k);
      var tail := if p(last) then [last] else [];
      WithKeyAppend(Filter(init, p), tail, key, k);
      assert WithKey(tail, key, k) == if AndKey(p, key, k)(last) then [last] else [];
    }
  }

  /** `stream().anyMatch(p)`. */
  function Any<T>(s: seq<T>, p: T -> bool): (r: bool)
    ensures r <==> exists i :: 0 <= i < |s| && p(s[i])
  {
    if s == [] then false
    else
      assert forall i :: 0 < i < |s| ==> s[i] == s[1..][i - 1];
      p(s[0]) || Any(s[1..], p)
  }

  /** `findById` on a table whose primary key `key` reads: the first row
      with that key, or none exactly when no row has it. */
  function FindBy<T>(rows: seq<T>, key: T -> Option<int>, id: int): (r: Option<T>)
    ensures r.Some? ==> r.value in rows && key(r.value) == Some(id)
    ensures r.None? <==> forall i :: 0 <= i < |rows| ==> key(rows[i]) != Some(id)
    ensures r.Some? ==> exists k :: 0 <= k < |rows| && rows[k] == r.value
                                    && forall j :: 0 <= j < k ==> key(rows[j]) != Some(id)
  {
    if rows == [] then None
    else if key(rows[0]) == Some(id) then Some(rows[0])
    else
      assert forall i :: 0 < i < |rows| ==> rows[i] == rows[1..][i - 1];
      FindBy(rows[1..], key, id)
  }

  /** `map(getId)` before an `in` query: the rows' keys in row order, a null
      key dropped, since it matches no row. */
  function Keys<T>(rows: seq<T>, key: T -> Option<int>): (r: seq<int>)
    ensures forall x :: x in r <==> exists i :: 0 <= i < |rows| && key(rows[i]) == Some(x)
  {
    if rows == [] then []
    else
      var rest := Keys(rows[1..], key);
      assert forall i :: 0 < i < |rows| ==> rows[i] == rows[1..][i - 1];
      assert forall x :: (exists i :: 0 < i < |rows| && key(rows[i]) == Some(x))
                         ==> exists i :: 0 <= i < |rows[1..]| && key(rows[1..][i]) == Some(x);
      if key(rows[0]).Some? then [key(rows[0]).value] + rest else rest
  }

  /** Strictly increasing. */
  predicate Increasing(xs: seq<int>) {
    forall i, j :: 0 <= i < j < |xs| ==> xs[i] < xs[j]
  }

  /** The distinct values of `xs` in increasing order, as `where x in (:xs)
      order by x` yields them. */
  function Ascending(xs: seq<int>): (r: seq<int>)
    ensures Increasing(r)
    ensures forall x :: x in r <==> x in xs
  {
    var sorted := SortBy(xs, x => x);
    assert forall x :: x in sorted <==> x in xs by {
      forall x ensures x in sorted <==> x in xs {
        assert x in sorted <==> multiset(sorted)[x] > 0;
        assert x in xs <==> multiset(xs)[x] > 0;
      }
    }
    Squeeze(sorted)
  }

  /** Drops every element equal to its predecessor. */
  function Squeeze(xs: seq<int>): (r: seq<int>)
    requires SortedBy(xs, x => x)
    ensures Increasing(r)
    ensures forall x :: x in r <==> x in xs
    ensures xs != [] ==> r != [] && r[0] == xs[0]
  {
    if |xs| <= 1 then xs
    else
      var rest := Squeeze(xs[1..]);
      assert forall x :: x in xs <==> x == xs[0] || x in xs[1..] by {
        assert xs == [xs[0]] + xs[1..];
      }
      if xs[0] == xs[1] then rest
      else
        assert forall j :: 0 <= j < |rest| ==> xs[0] < rest[j] by {
          forall j | 0 <= j < |rest| ensures xs[0] < rest[j] {
            assert rest[j] in xs[1..];
          }
        }
        [xs[0]] + rest
  }
}
