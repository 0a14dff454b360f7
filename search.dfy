/** `search_shorts`: paging through the search service until enough ids are
    collected or the service offers no further page. The service's answers
    are given in advance as the pages it returns, in order; when that list
    runs out the loop stops as well. */
module ShortsSearch {
  import opened Wrappers
  import opened Seqs

  /** One search response: the video ids it lists and its `nextPageToken`. */
  datatype Page = Page(items: seq<string>, nextPageToken: Option<string>)

  /** What one `search().list(...)` call asks for, besides the fixed
      `type="video"`, `videoDuration="short"`, `order="viewCount"` parameters. */
  datatype Request = Request(query: string, pageToken: Option<string>, maxResults: int)

  /** The service returns at most this many ids per page. */
  const PAGE_LIMIT: int := 50

  /** `next_tok` is truthy: present and not the empty string. */
  predicate HasNextPage(p: Page)
  {
    p.nextPageToken.Some? && p.nextPageToken.value != ""
  }

  /** The ids of the given pages, in page order. */
  function ItemsOf(pages: seq<Page>): seq<string>
  {
    if |pages| == 0 then [] else pages[0].items + ItemsOf(pages[1..])
  }

  lemma {:induction false} ItemsOfAppend(a: seq<Page>, b: seq<Page>)
    ensures ItemsOf(a + b) == ItemsOf(a) + ItemsOf(b)
  {
    if |a| == 0 {
      assert a + b == b;
    } else {
      assert (a + b)[1..] == a[1..] + b;
      ItemsOfAppend(a[1..], b);
    }
  }

  /** How many pages the loop requests when `maxItems` ids are wanted:
      none when nothing is wanted or nothing is left; otherwise the next page,
      and more only if it has a successor and did not fill the quota. */
  function PagesRead(pages: seq<Page>, maxItems: int): (n: nat)
    ensures n <= |pages|
  {
    if maxItems <= 0 || |pages| == 0 then 0
    else if !HasNextPage(pages[0]) || |pages[0].items| >= maxItems then 1
    else 1 + PagesRead(pages[1..], maxItems - |pages[0].items|)
  }

  /** What `search_shorts` returns: the ids of the pages read, cut to
      `maxItems` (`vids[:max_items]`; nothing is read when `maxItems <= 0`). */
  function ShortsFound(pages: seq<Page>, maxItems: int): seq<string>
  {
    Take(ItemsOf(pages[..PagesRead(pages, maxItems)]), maxItems)
  }

  /** The request for page `j`: the token of the page before it and the
      number of ids still missing, capped at 50. */
  function RequestFor(pages: seq<Page>, query: string, maxItems: int, j: nat): Request
    requires j <= |pages|
  {
    Request(query, if j == 0 then None else pages[j - 1].nextPageToken,
      Min(PAGE_LIMIT, maxItems - |ItemsOf(pages[..j])|))
  }

  function Min(a: int, b: int): int
  {
    if a <= b then a else b
  }

  /** Why the loop stops where it does: it went on after every page but the
      last one it read, each of which had a next page and left the quota
      unfilled; it requests nothing after a page without a token; and when
      pages were left unread, the last page read had no token or filled
      the quota. */
  lemma PagesReadStops(pages: seq<Page>, maxItems: int)
    ensures PagesRead(pages, maxItems) == 0 <==> maxItems <= 0 || pages == []
    ensures forall j :: 0 <= j < PagesRead(pages, maxItems) - 1 ==>
      HasNextPage(pages[j]) && |ItemsOf(pages[..j + 1])| < maxItems
    ensures var n := PagesRead(pages, maxItems);
      0 < n < |pages| ==> !HasNextPage(pages[n - 1]) || |ItemsOf(pages[..n])| >= maxItems
  {
    var n: int := PagesRead(pages, maxItems);
    forall j: int | 0 <= j < n - 1
      ensures HasNextPage(pages[j]) && |ItemsOf(pages[..j + 1])| < maxItems
    {
      PagesReadContinued(pages, maxItems, j);
    }
    PagesReadStopped(pages, maxItems);
  }

  /** Every page read before the last one had a token and left the quota
      unfilled. */
  lemma {:induction false} PagesReadContinued(pages: seq<Page>, maxItems: int, j: nat)
    requires j < PagesRead(pages, maxItems) - 1
    ensures HasNextPage(pages[j]) && |ItemsOf(pages[..j + 1])| < maxItems
  {
    var p, rest := pages[0], pages[1..];
    var m := maxItems - |p.items|;
    assert PagesRead(pages, maxItems) == 1 + PagesRead(rest, m);
    ItemsOfFirst(pages, j);
    if j > 0 {
      PagesReadContinued(rest, m, j - 1);
      assert pages[j] == rest[j - 1];
      assert rest[..j] == rest[..j - 1 + 1];
    }
  }

  /** When pages are left unread, the last page read had no token or filled
      the quota. */
  lemma {:induction false} PagesReadStopped(pages: seq<Page>, maxItems: int)
    ensures var n := PagesRead(pages, maxItems);
      0 < n < |pages| ==> !HasNextPage(pages[n - 1]) || |ItemsOf(pages[..n])| >= maxItems
  {
    var n := PagesRead(pages, maxItems);
    if 0 < n < |pages| {
      var p, rest := pages[0], pages[1..];
      if HasNextPage(p) && |p.items| < maxItems {
        var m := maxItems - |p.items|;
        assert n == 1 + PagesRead(rest, m);
        PagesReadStopped(rest, m);
        ItemsOfFirst(pages, n - 1);
        assert pages[n - 1] == rest[n - 2];
        assert rest[..n - 1] == rest[..n - 2 + 1];
      } else {
        ItemsOfFirst(pages, 0);
      }
    }
  }

  /** The ids of the first `j + 1` pages: those of the first page, then
      those of the next `j`. */
  lemma ItemsOfFirst(pages: seq<Page>, j: nat)
    requires j < |pages|
    ensures ItemsOf(pages[..j + 1]) == pages[0].items + ItemsOf(pages[1..][..j])
  {
    assert pages[..j + 1] == [pages[0]] + pages[1..][..j];
    ItemsOfAppend([pages[0]], pages[1..][..j]);
    assert ItemsOf([pages[0]]) == pages[0].items;
  }

  /** The result holds at most `maxItems` ids and is a prefix of all the
      pages' ids in page order. */
  lemma ShortsFoundPrefix(pages: seq<Page>, maxItems: int)
    ensures |ShortsFound(pages, maxItems)| <= if maxItems <= 0 then 0 else maxItems
    ensures ShortsFound(pages, maxItems) <= ItemsOf(pages)
  {
    var n := PagesRead(pages, maxItems);
    assert pages == pages[..n] + pages[n..];
    ItemsOfAppend(pages[..n], pages[n..]);
  }

  /** `search_shorts(yt, q, days_back, max_items)` with the search service's
      answers as `pages`: the ids found and the requests made, in order. */
  method SearchShorts(pages: seq<Page>, query: string, maxItems: int) returns (ids: seq<string>, requests: seq<Request>)
    ensures ids == ShortsFound(pages, maxItems)
    ensures |requests| == PagesRead(pages, maxItems)
    ensures forall j :: 0 <= j < |requests| ==> requests[j] == RequestFor(pages, query, maxItems, j)
  {
    var vids: seq<string> := [];
    var nextTok: Option<string> := None;
    requests := [];
    var i := 0;
    while |vids| < maxItems && i < |pages|
      invariant 0 <= i <= |pages| && |requests| == i
      invariant vids == ItemsOf(pages[..i])
      invariant nextTok == if i == 0 then None else pages[i - 1].nextPageToken
      invariant PagesRead(pages, maxItems) == i + PagesRead(pages[i..], maxItems - |vids|)
      invariant forall j :: 0 <= j < i ==> requests[j] == RequestFor(pages, query, maxItems, j)
    {
      requests := requests + [Request(query, nextTok, Min(PAGE_LIMIT, maxItems - |vids|))];
      var resp := pages[i];
      assert pages[..i + 1] == pages[..i] + [resp];
      ItemsOfAppend(pages[..i], [resp]);
      assert ItemsOf([resp]) == resp.items;
      assert pages[i..][1..] == pages[i + 1..];
      vids := vids + resp.items;
      nextTok := resp.nextPageToken;
      i := i + 1;
      if !HasNextPage(resp) {
        break;
      }
    }
    assert pages[..i] == pages[..PagesRead(pages, maxItems)];
    ids := Take(vids, maxItems);
  }
}
