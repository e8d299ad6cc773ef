/** Spring Data paging as the services use it: `PageRequest.of(from / size,
    size)` and the content of one page of an ordered result. */
module Paging {
  import opened Shared

  /** A page request: a zero-based page index and a positive page size. */
  datatype PageRequest = PageRequest(page: nat, size: nat)

  /** `PageRequest.of(page, size)`: rejects a negative index, then a size below one. */
  function Of(page: int, size: int): (r: Result<PageRequest>)
    ensures r.Ok? <==> 0 <= page && 1 <= size
    ensures r.Ok? ==> r.value.page == page && r.value.size == size
    ensures page < 0 ==> r == Err(IllegalArgument("Page index must not be less than zero"))
    ensures 0 <= page && size < 1 ==> r == Err(IllegalArgument("Page size must not be less than one"))
  {
    if page < 0 then Err(IllegalArgument("Page index must not be less than zero"))
    else if size < 1 then Err(IllegalArgument("Page size must not be less than one"))
    else Ok(PageRequest(page, size))
  }

  /** `PageRequest.of(from / size, size)` with Java's `int` division: a zero
      size throws ArithmeticException before any page is built, and a
      negative quotient is refused before the size is looked at. */
  function FromOffset(from: Int32, size: Int32): (r: Result<PageRequest>)
    ensures size == 0 ==> r == Err(Internal("/ by zero"))
    ensures r.Ok? <==> 0 < size && -size < from
    ensures 0 <= from && 0 < size ==> r == Ok(PageRequest(from / size, size)) == Ok(PageOfRow(from, size))
    ensures size != 0 && IntDiv(from, size) < 0 ==> r == Err(IllegalArgument("Page index must not be less than zero"))
    ensures size < 0 && 0 <= IntDiv(from, size) ==> r == Err(IllegalArgument("Page size must not be less than one"))
  {
    if size == 0 then Err(Internal("/ by zero")) else Of(IntDiv(from, size), size)
  }

  /** `Integer.MIN_VALUE / -1` wraps to `Integer.MIN_VALUE`, so the index
      check fails first; the true quotient 2^31 would have passed it and
      failed on the size instead. */
  lemma MinValueOverMinusOne()
    ensures FromOffset(MinInt, -1) == Err(IllegalArgument("Page index must not be less than zero"))
    ensures Of(JavaDiv(MinInt, -1), -1) == Err(IllegalArgument("Page size must not be less than one"))
  {
  }

  /** `from` is a cursor rounded down to a whole page, not a row offset: every
      `from` inside page `p` asks for page `p`. */
  lemma {:induction false} OffsetRoundsDownToPage(p: nat, r: nat, size: nat)
    requires r < size <= MaxInt && p * size + r <= MaxInt
    ensures FromOffset(p * size + r, size) == FromOffset(p * size, size) == Ok(PageRequest(p, size))
  {
    assert (p * size + r) / size == p by {
      LemmaDivPlus(p, r, size);
    }
    assert (p * size) / size == p by {
      LemmaDivPlus(p, 0, size);
    }
  }

  lemma LemmaDivPlus(p: nat, r: nat, size: nat)
    requires r < size
    ensures (p * size + r) / size == p
  {
    var q, m := (p * size + r) / size, (p * size + r) % size;
    assert q * size + m == p * size + r;
    if q > p {
      MulLe(p + 1, q, size);
    } else if q < p {
      MulLe(q + 1, p, size);
    }
  }

  lemma MulLe(a: int, b: int, c: nat)
    requires a <= b
    ensures a * c <= b * c
  {
    assert b * c - a * c == (b - a) * c;
  }

  /** Java truncates toward zero, so a negative `from` above `-size` still
      asks for the first page. */
  lemma SmallNegativeOffsetIsFirstPage(from: Int32, size: Int32)
    requires 0 < size && -size < from < 0
    ensures FromOffset(from, size) == Ok(PageRequest(0, size))
  {
    assert Abs(from) / Abs(size) == 0;
    assert JavaDiv(from, size) == 0;
  }

  /** Where a page starts in the ordered result. */
  function Offset(p: PageRequest): nat { p.page * p.size }

  /** `r` is page `p` of the ordered result `s`: the elements of `s` at
      positions `page * size` up to `page * size + size`, cut at the end. */
  predicate IsPage<T(==)>(r: seq<T>, s: seq<T>, p: PageRequest) {
    && |r| == (if |s| <= Offset(p) then 0 else Min(p.size, |s| - Offset(p)))
    && forall i :: 0 <= i < |r| ==> Offset(p) + i < |s| && r[i] == s[Offset(p) + i]
  }

  /** The content of page `p` of the ordered result `s`. */
  function Content<T(==)>(s: seq<T>, p: PageRequest): (r: seq<T>)
    ensures |r| <= p.size
    ensures IsPage(r, s, p)
  {
    if |s| <= Offset(p) then [] else s[Offset(p)..Offset(p) + Min(p.size, |s| - Offset(p))]
  }

  /** The page of `size` rows that holds row `k`: page `k / size`. */
  function PageOfRow(k: nat, size: nat): (p: PageRequest)
    requires 0 < size
    ensures p.size == size && Offset(p) <= k < Offset(p) + size
  {
    DivMod(k, size);
    PageRequest(k / size, size)
  }

  /** Row `k` of an ordered result is on the page that holds it, at its
      distance from the page's start. */
  lemma PageOf<T>(s: seq<T>, k: nat, size: nat)
    requires 0 < size && k < |s|
    ensures var p := PageOfRow(k, size);
            k - Offset(p) < |Content(s, p)| && Content(s, p)[k - Offset(p)] == s[k]
  {
  }

  lemma DivMod(k: nat, size: nat)
    requires 0 < size
    ensures (k / size) * size + k % size == k && k % size < size
  {
  }

  function Min(a: int, b: int): int { if a < b then a else b }
}
