/** `entries_since` in `src/miniflux.rs`: reading a list page by page. */
module Miniflux {
  import opened Text
  import opened Sorting

  const MAX_PAGES: nat := 200
  const MAX_PAGE_LIMIT := 250

  type EntryId = int

  datatype Page = Page(entries: seq<EntryId>, total: int)

  /** The server's answer to the request with an offset; none is a failed request. */
  type Server = nat -> Option<Page>

  /** The entries, none after a failed request, and how many requests were made. */
  datatype Fetched = Fetched(entries: Option<seq<EntryId>>, requests: nat)

  /** The paging, with `left` pages to go. */
  function Fetch(server: Server, limit: nat, left: nat, all: seq<EntryId>, offset: nat): Fetched
    decreases left
  {
    if left == 0 then Fetched(Some(all), 0)
    else
      match server(offset)
      case None => Fetched(None, 1)
      case Some(page) =>
        var longer := all + page.entries;
        if |page.entries| < limit || |longer| >= page.total then Fetched(Some(longer), 1)
        else
          var r := Fetch(server, limit, left - 1, longer, offset + limit);
          r.(requests := r.requests + 1)
  }

  class Client {
    const pageLimit: nat

    /** The configured limit is clamped. */
    constructor (configured: nat)
      ensures 1 <= pageLimit <= MAX_PAGE_LIMIT
      ensures 1 <= configured <= MAX_PAGE_LIMIT ==> pageLimit == configured
    {
      pageLimit := if configured < 1 then 1 else if configured > MAX_PAGE_LIMIT then MAX_PAGE_LIMIT else configured;
    }

    /** `entries_since`. */
    method EntriesSince(server: Server) returns (entries: Option<seq<EntryId>>, requests: nat)
      ensures Fetched(entries, requests) == Fetch(server, pageLimit, MAX_PAGES, [], 0)
    {
      var all: seq<EntryId> := [];
      var offset: nat := 0;
      requests := 0;
      for page: nat := 0 to MAX_PAGES
        invariant requests == page
        invariant var rest := Fetch(server, pageLimit, MAX_PAGES - page, all, offset);
                  Fetch(server, pageLimit, MAX_PAGES, [], 0) == rest.(requests := page + rest.requests)
      {
        var answer := server(offset);
        requests := requests + 1;
        if answer.None? {
          return None, requests;
        }
        var got := |answer.value.entries|;
        all := all + answer.value.entries;
        if got < pageLimit || |all| >= answer.value.total {
          return Some(all), requests;
        }
        offset := offset + pageLimit;
      }
      entries := Some(all);
    }
  }

  // -------------------------------------------------------------------------
  // Against a list that does not change
  // -------------------------------------------------------------------------

  ghost predicate Serves(server: Server, list: seq<EntryId>, limit: nat) {
    forall offset: nat :: offset <= |list| ==> server(offset) == Some(Page(Take(list[offset..], limit), |list|))
  }

  /** Pages of `limit` that `n` entries fill, the last one maybe in part. */
  function Pages(n: nat, limit: nat): nat
    requires limit > 0
  {
    (n + limit - 1) / limit
  }

  function Min(a: nat, b: nat): nat { if a <= b then a else b }
  function Max(a: nat, b: nat): nat { if a >= b then a else b }

  lemma QuotientIs(a: int, b: int, q: int, r: int)
    requires b > 0 && a == b * q + r && 0 <= r < b
    ensures a / b == q
  {
    var d := a / b;
    assert a == b * d + a % b;
    assert d <= q - 1 ==> b * d <= b * (q - 1);
    assert d >= q + 1 ==> b * d >= b * (q + 1);
  }

  lemma PagesStep(n: nat, limit: nat)
    requires limit > 0
    ensures n <= limit ==> Pages(n, limit) <= 1
    ensures n > limit ==> Pages(n, limit) == 1 + Pages(n - limit, limit)
  {
    if n == 0 {
      QuotientIs(limit - 1, limit, 0, limit - 1);
    } else if n <= limit {
      QuotientIs(n + limit - 1, limit, 1, n - 1);
    } else {
      var q, r := (n - 1) / limit, (n - 1) % limit;
      QuotientIs(n + limit - 1, limit, q + 1, r);
    }
  }

  lemma {:induction false} FetchFrom(server: Server, limit: nat, left: nat, list: seq<EntryId>, offset: nat)
    requires limit > 0 && left > 0 && offset <= |list| && Serves(server, list, limit)
    requires offset == 0 || offset < |list|
    ensures var r := Fetch(server, limit, left, list[..offset], offset);
            && r.entries == Some(list[..Min(|list|, offset + left * limit)])
            && r.requests == Max(1, Min(left, Pages(|list| - offset, limit)))
    decreases left
  {
    var page := Take(list[offset..], limit);
    var n := |list| - offset;
    PagesStep(n, limit);
    assert list[..offset] + page == list[..offset + Min(n, limit)];
    assert left * limit == limit + (left - 1) * limit;
    assert (left - 1) * limit >= 0;
    if n > limit {
      PagesStep(n - limit, limit);
      if left > 1 {
        FetchFrom(server, limit, left - 1, list, offset + limit);
      }
    }
  }

  /** The paging returns the first entries of the list, in order and without repeats:
      all of them, or as many as the maximal number of pages holds. It takes as many
      requests as there are pages to fill, but at least one. */
  lemma FetchesTheList(server: Server, list: seq<EntryId>, limit: nat)
    requires limit > 0 && Serves(server, list, limit)
    ensures var r := Fetch(server, limit, MAX_PAGES, [], 0);
            && r.entries == Some(Take(list, 200 * limit))
            && r.requests == Max(1, Min(200, Pages(|list|, limit)))
  {
    assert list[..0] == [];
    FetchFrom(server, limit, MAX_PAGES, list, 0);
    assert list[..|list|] == list;
  }

  /** Whatever the server answers, there are 200 requests at most, and a failed one ends
      the paging without a result. */
  lemma {:induction false} FetchEnds(server: Server, limit: nat, left: nat, all: seq<EntryId>, offset: nat)
    ensures var r := Fetch(server, limit, left, all, offset);
            && r.requests <= left
            && (r.entries.None? <==> r.requests > 0 && server(offset + (r.requests - 1) * limit).None?)
            && (r.entries.Some? ==> all <= r.entries.value)
    decreases left
  {
    if left > 0 && server(offset).Some? {
      var longer := all + server(offset).value.entries;
      FetchEnds(server, limit, left - 1, longer, offset + limit);
      var r := Fetch(server, limit, left - 1, longer, offset + limit);
      if r.requests > 0 {
        assert offset + limit + (r.requests - 1) * limit == offset + (r.requests + 1 - 1) * limit;
      }
    }
  }
}
