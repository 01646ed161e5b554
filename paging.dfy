/** Offset pagination as the list routes compute it: `page` and `limit`
    from the query string, `skip = (page - 1) * limit`, the page of a
    sorted result, and the `pagination` object of the response. */
module Paging {
  import opened Common

  /** `parseInt(q) || d`: `q` is the parsed query value (None for NaN); NaN
      and 0 are falsy and give the default. */
  function ParamOr(q: Option<int>, d: int): (r: int)
    ensures d != 0 ==> r != 0
    ensures r == d || (q.Some? && r == q.value)
    ensures q.Some? && q.value != 0 ==> r == q.value
  {
    if q.Some? && q.value != 0 then q.value else d
  }

  const DefaultPage := 1
  const DefaultLimit := 10

  function Skip(page: int, limit: int): int {
    (page - 1) * limit
  }

  /** `Math.ceil(a / b)` for a non-negative count and a non-zero divisor of
      either sign: the least integer not below the real quotient. */
  function CeilDiv(a: nat, b: int): (r: int)
    requires b != 0
    ensures b > 0 ==> (r - 1) * b < a <= r * b
    ensures b < 0 ==> r * b <= a < (r - 1) * b
  {
    if b > 0 then
      var q := (a + b - 1) / b;
      assert (q - 1) * b < a <= q * b by {
        DivBounds(a + b - 1, b);
      }
      q
    else
      var q := a / -b;
      DivBounds(a, -b);
      assert (-q) * b == q * -b;
      assert (-q - 1) * b == (q + 1) * -b;
      -q
  }

  lemma DivBounds(n: int, d: int)
    requires d > 0
    ensures (n / d) * d <= n < (n / d + 1) * d
  {
  }

  datatype Pagination = Pagination(
    currentPage: int,
    totalPages: int,
    total: nat,
    hasNext: bool,
    hasPrev: bool)

  /** The `pagination` object both list routes return. */
  function Paginate(page: int, limit: int, total: nat): (p: Pagination)
    requires limit != 0
    ensures p.currentPage == page && p.total == total
    ensures p.totalPages == CeilDiv(total, limit)
    ensures p.hasNext <==> page * limit < total
    ensures p.hasPrev <==> page > 1
  {
    Pagination(page, CeilDiv(total, limit), total, page * limit < total, page > 1)
  }

  /** For a positive limit, there is a next page exactly when the current
      page comes before the last one. */
  lemma HasNextIffBeforeLastPage(page: int, limit: int, total: nat)
    requires limit >= 1
    ensures Paginate(page, limit, total).hasNext <==> page < Paginate(page, limit, total).totalPages
  {
    var t := CeilDiv(total, limit);
    if page < t {
      MulMono(page, t - 1, limit);
    } else {
      MulMono(t, page, limit);
    }
  }

  lemma MulMono(x: int, y: int, k: int)
    requires x <= y && k >= 0
    ensures x * k <= y * k
  {
    assert y * k - x * k == (y - x) * k;
  }

  /** What `.skip(skip).limit(limit)` returns from a sorted result: MongoDB
      rejects a negative skip (the handler then answers 500), and a negative
      limit acts as its absolute value. */
  function Window<T>(s: seq<T>, skip: int, limit: int): (r: Option<seq<T>>)
    requires limit != 0
    ensures r.None? <==> skip < 0
    ensures r.Some? ==> |r.value| == Clamp(|s| - skip, Abs(limit))
    ensures r.Some? ==> forall i :: 0 <= i < |r.value| ==> r.value[i] == s[skip + i]
  {
    if skip < 0 then None
    else if skip >= |s| then Some([])
    else
      var end := if skip + Abs(limit) < |s| then skip + Abs(limit) else |s|;
      Some(s[skip..end])
  }

  function Abs(x: int): nat {
    if x < 0 then -x else x
  }

  /** `n` cut into the range 0..hi. */
  function Clamp(n: int, hi: nat): nat {
    if n < 0 then 0 else if n > hi then hi else n
  }

  /** The response says there is a next page exactly when the next page of
      the same query is not empty. */
  lemma HasNextIffNextPageNonEmpty<T>(s: seq<T>, page: int, limit: int)
    requires page >= 0 && limit >= 1
    ensures Window(s, Skip(page + 1, limit), limit).Some?
    ensures Paginate(page, limit, |s|).hasNext <==> Window(s, Skip(page + 1, limit), limit).value != []
  {
    assert Skip(page + 1, limit) == page * limit;
    MulMono(0, page, limit);
  }
}
