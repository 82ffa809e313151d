/** The list handler's query parameters: defaulting of `page` and `limit`,
    the row offset they select, and how successive pages cover the table. */
module Paging {
  import opened Wrappers
  import opened Products
  import opened Table

  const DefaultPage: nat := 1
  const DefaultLimit: nat := 10

  /** A query parameter after `strconv.Atoi` and the `< 1` check: a value
      that parsed and is at least 1 is kept; anything else (absent, not a
      number, zero or negative) becomes the fallback. */
  function ParamOr(raw: Option<int>, fallback: nat): (r: nat)
    requires fallback >= 1
    ensures r >= 1
    ensures raw == Some(r) || r == fallback
    ensures raw.Some? && raw.value >= 1 ==> r == raw.value
  {
    match raw
    case Some(v) => if v >= 1 then v else fallback
    case None => fallback
  }

  /** The number of rows that come before page `page`. */
  function Offset(page: nat, limit: nat): nat
    requires page >= 1
  {
    (page - 1) * limit
  }

  /** Consecutive pages are adjacent: page p + 1 starts where page p ends. */
  lemma OffsetNext(page: nat, limit: nat)
    requires page >= 1
    ensures Offset(page + 1, limit) == Offset(page, limit) + limit
  {
  }

  /** The number of pages of `limit` rows that a table of `n` rows fills. */
  function PageCount(n: nat, limit: nat): nat
    requires limit >= 1
  {
    (n + limit - 1) / limit
  }

  lemma MulMono(a: int, b: int, c: nat)
    requires a <= b
    ensures a * c <= b * c
  {
  }

  /** The list handler answers 404 exactly for the pages past the last one:
      page p is in range iff p <= PageCount(n, limit). */
  lemma InRangeIff(n: nat, page: nat, limit: nat)
    requires page >= 1 && limit >= 1
    ensures Offset(page, limit) < n <==> page <= PageCount(n, limit)
  {
    var c := PageCount(n, limit);
    assert c * limit <= n + limit - 1 < c * limit + limit;
    if page <= c {
      MulMono(page - 1, c - 1, limit);
      assert (c - 1) * limit == c * limit - limit;
    } else {
      MulMono(c, page - 1, limit);
    }
  }

  /** What a client collects by asking for page, page + 1, ... with the same
      limit until the list handler answers 404. */
  function Pages(t: seq<Product>, page: nat, limit: nat): seq<Product>
    requires page >= 1 && limit >= 1
    decreases |t| - Offset(page, limit)
  {
    if Offset(page, limit) >= |t| then []
    else
      OffsetNext(page, limit);
      Window(t, Offset(page, limit), limit) + Pages(t, page + 1, limit)
  }

  /** A page in range is its window followed by the pages after it. */
  lemma PagesUnfold(t: seq<Product>, page: nat, limit: nat)
    requires page >= 1 && limit >= 1 && Offset(page, limit) < |t|
    ensures Pages(t, page, limit) ==
            t[Offset(page, limit)..Min(Offset(page, limit) + limit, |t|)] + Pages(t, page + 1, limit)
  {
  }

  /** The pages from `page` on hold exactly the rows from that page's offset
      to the end of the table, in order: no row is skipped or repeated, as
      long as every request sees the same table in the same storage order. */
  lemma {:induction false} PagesCoverRest(t: seq<Product>, page: nat, limit: nat)
    requires page >= 1 && limit >= 1
    ensures Pages(t, page, limit) == t[Min(Offset(page, limit), |t|)..]
    decreases |t| - Offset(page, limit)
  {
    var o := Offset(page, limit);
    if o < |t| {
      OffsetNext(page, limit);
      PagesCoverRest(t, page + 1, limit);
      PagesUnfold(t, page, limit);
      SplitAt(t[o..], Min(o + limit, |t|) - o);
    }
  }

  lemma SplitAt(s: seq<Product>, n: nat)
    requires n <= |s|
    ensures s[..n] + s[n..] == s
  {
  }

  /** Paging through the list from page 1 with any limit returns every row of
      the table exactly once, in storage order, provided the table and its
      storage order stay the same between the page requests; the order is
      fixed here as an abstraction, the service itself does not promise it. */
  lemma AllPagesListTable(t: seq<Product>, limit: nat)
    requires limit >= 1
    ensures Pages(t, 1, limit) == t
  {
    PagesCoverRest(t, 1, limit);
  }
}
