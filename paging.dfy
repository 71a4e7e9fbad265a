/**
 * The arithmetic of `GET /api/users`: the defaulting of `page` and `limit`,
 * the skip, the window of filtered records one page shows, the total count
 * and `totalPages = Math.ceil(total / limit)`.
 */
module Paging {
  import opened Wrappers
  import opened Schema
  import opened Search

  const DefaultPage := 1
  const DefaultLimit := 5

  /** The response body of a successful list request. */
  datatype Page = Page(page: int, limit: int, total: nat, totalPages: int, data: seq<User>)

  /** MongoDB refuses a negative skip; the handler answers 500. */
  datatype StoreError = NegativeSkip

  function Min(a: int, b: int): int { if a <= b then a else b }

  function Abs(x: int): nat { if x < 0 then -x else x }

  /**
   * `parseInt(q) || fallback`. The parsed value is None when `parseInt`
   * gives NaN (absent or non-numeric text); NaN and 0 are falsy and give the
   * fallback, every other integer, a negative one included, is kept.
   */
  function OrDefault(parsed: Option<int>, fallback: int): (r: int)
    ensures parsed.None? ==> r == fallback
    ensures parsed == Some(0) ==> r == fallback
    ensures parsed.Some? && parsed.value != 0 ==> r == parsed.value
    ensures fallback != 0 ==> r != 0
  {
    match parsed
    case Some(v) => if v != 0 then v else fallback
    case None => fallback
  }

  /** The number of matching records skipped before the page starts. */
  function Skip(page: int, limit: int): int {
    (page - 1) * limit
  }

  /**
   * `Math.ceil(n / d)` on exact integers, for a non-zero divisor: the least
   * integer r with n / d <= r, written without division.
   */
  function CeilDiv(n: nat, d: int): (r: int)
    requires d != 0
    ensures d > 0 ==> (r - 1) * d < n <= r * d
    ensures d < 0 ==> r * d <= n < (r - 1) * d
    ensures n == 0 ==> r == 0
    ensures d > 0 ==> r >= 0
    ensures d < 0 ==> r <= 0
  {
    if d > 0 then
      var q := (n + d - 1) / d;
      assert q * d + (n + d - 1) % d == n + d - 1;
      assert (q - 1) * d == q * d - d;
      q
    else
      var q := n / -d;
      assert q * -d + n % -d == n;
      assert (-q - 1) * d == q * -d - d;
      -q
  }

  /**
   * The records `find(filter).skip(skip).limit(take)` returns: those at
   * positions skip, skip+1, ... of the filtered sequence, at most `take` of them.
   */
  function Window<T>(s: seq<T>, skip: nat, take: nat): (r: seq<T>)
    ensures |r| == if skip >= |s| then 0 else Min(take, |s| - skip)
    ensures forall i :: 0 <= i < |r| ==> r[i] == s[skip + i]
  {
    if skip >= |s| then [] else s[skip..Min(skip + take, |s|)]
  }

  /**
   * The list handler over a snapshot of the collection. A negative skip is
   * refused by the store; a negative limit is sent to the store as its
   * absolute value (a single batch); `page`, `limit` and `totalPages` are
   * echoed as computed.
   */
  function List(records: seq<User>, pageQ: Option<int>, limitQ: Option<int>, search: string, fold: char -> char)
    : (r: Result<Page, StoreError>)
    ensures r.Err? <==> Skip(OrDefault(pageQ, DefaultPage), OrDefault(limitQ, DefaultLimit)) < 0
    ensures r.Ok? ==> r.value.page == OrDefault(pageQ, DefaultPage) && r.value.limit == OrDefault(limitQ, DefaultLimit)
    ensures r.Ok? ==> r.value.total == |Filter(records, search, fold)|
    ensures r.Ok? && search == [] ==> r.value.total == |records|
    ensures r.Ok? ==> |r.value.data| <= Abs(r.value.limit)
    ensures r.Ok? ==> forall u :: u in r.value.data ==> u in records && Matches(u, search, fold)
    ensures r.Ok? ==> r.value.totalPages == CeilDiv(r.value.total, r.value.limit)
    ensures r.Ok? && r.value.limit > 0 && r.value.total > 0 ==>
      (r.value.totalPages - 1) * r.value.limit < r.value.total <= r.value.totalPages * r.value.limit
    ensures r.Ok? && r.value.total == 0 ==> r.value.totalPages == 0
  {
    var page := OrDefault(pageQ, DefaultPage);
    var limit := OrDefault(limitQ, DefaultLimit);
    var matched := Filter(records, search, fold);
    var skip := Skip(page, limit);
    if skip < 0 then Err(NegativeSkip)
    else
      var data := Window(matched, skip, Abs(limit));
      assert forall u :: u in data ==> u in matched;
      Ok(Page(page, limit, |matched|, CeilDiv(|matched|, limit), data))
  }

  /** For page >= 1 and limit >= 1 the page is exactly the filtered records at positions [skip, skip + limit). */
  lemma PageIsWindowOfMatches(records: seq<User>, page: int, limit: int, search: string, fold: char -> char)
    requires page >= 1 && limit >= 1
    ensures var matched := Filter(records, search, fold);
      var skip := (page - 1) * limit;
      && List(records, Some(page), Some(limit), search, fold).Ok?
      && List(records, Some(page), Some(limit), search, fold).value.data
         == if skip >= |matched| then [] else matched[skip..Min(skip + limit, |matched|)]
  {
    var matched := Filter(records, search, fold);
    var skip := (page - 1) * limit;
    var data := Window(matched, skip, limit);
    assert List(records, Some(page), Some(limit), search, fold)
        == Ok(Page(page, limit, |matched|, CeilDiv(|matched|, limit), data)) by {
      assert skip >= 0;
      assert OrDefault(Some(page), DefaultPage) == page && OrDefault(Some(limit), DefaultLimit) == limit;
      assert Skip(page, limit) == skip && Abs(limit) == limit;
    }
    assert data == if skip >= |matched| then [] else matched[skip..Min(skip + limit, |matched|)] by {
      assert skip >= 0;
    }
  }

  /** Page 1 skips nothing: it is the first `limit` matching records. */
  lemma FirstPageIsPrefix(s: seq<User>, limit: int)
    requires limit >= 1
    ensures Window(s, Skip(1, limit), limit) == s[..Min(limit, |s|)]
  {
  }

  /** Page p + 1 starts where page p ends: two consecutive pages are one window twice as long. */
  lemma ConsecutivePagesAdjacent<T>(s: seq<T>, page: int, limit: int)
    requires page >= 1 && limit >= 1
    ensures Skip(page + 1, limit) == Skip(page, limit) + limit
    ensures Window(s, Skip(page, limit), limit) + Window(s, Skip(page + 1, limit), limit)
         == Window(s, Skip(page, limit), 2 * limit)
  {
  }

  /** Pages p < q never share a record position: page p ends no later than page q starts. */
  lemma PagesDoNotOverlap(p: int, q: int, limit: int)
    requires 1 <= p < q && limit >= 1
    ensures Skip(p, limit) + limit <= Skip(q, limit)
  {
    var d := q - p - 1;
    assert d >= 0 && d * limit >= 0;
    assert (q - 1) * limit == (p - 1) * limit + d * limit + limit;
  }

  /** The concatenation of pages 1..n. */
  function Pages<T>(s: seq<T>, limit: nat, n: nat): seq<T> {
    if n == 0 then [] else Pages(s, limit, n - 1) + Window(s, (n - 1) * limit, limit)
  }

  /** Pages 1..n together are the first n * limit records. */
  lemma {:induction false} PagesArePrefix<T>(s: seq<T>, limit: nat, n: nat)
    ensures Pages(s, limit, n) == s[..Min(n * limit, |s|)]
  {
    if n > 0 {
      PagesArePrefix(s, limit, n - 1);
      var a := (n - 1) * limit;
      assert n * limit == a + limit;
      var w := Window(s, a, limit);
      if a < |s| {
        assert w == s[a..Min(a + limit, |s|)];
        assert s[..Min(n * limit, |s|)] == s[..a] + s[a..Min(a + limit, |s|)];
      } else {
        assert w == [];
      }
    }
  }

  /** Pages 1..totalPages list every matching record exactly once, in order. */
  lemma AllPagesCoverMatches<T>(s: seq<T>, limit: int)
    requires limit >= 1
    ensures Pages(s, limit, CeilDiv(|s|, limit)) == s
  {
    var n := CeilDiv(|s|, limit);
    PagesArePrefix(s, limit, n);
    assert |s| <= n * limit;
  }

  /** A page after the last one is empty. */
  lemma PastLastPageIsEmpty<T>(s: seq<T>, page: int, limit: int)
    requires limit >= 1 && page > CeilDiv(|s|, limit)
    ensures Window(s, Skip(page, limit), limit) == []
  {
    var n := CeilDiv(|s|, limit);
    assert n >= 0;
    assert Skip(page, limit) == (page - 1) * limit >= n * limit;
  }
}
