/** fetch_wordpress_data (autoStattic.py:28-64): request pages 1, 2, 3, ... of a collection,
    gather what they hold, and stop at the first empty, short or failed page.

    The server is a finite list of responses: `server[p - 1]` answers the request for page p,
    and every page past the end answers with an empty JSON array. */
module Pagination {

  /** One page's answer: the decoded item array, or a failure (a non-2xx status, a body that
      is not JSON, or any other exception raised inside the `try`). */
  datatype Response<T> = Page(items: seq<T>) | Failed

  /** What the loop gathered and how many requests it made (the number of the last page). */
  datatype Outcome<T> = Outcome(data: seq<T>, lastPage: nat)

  function PageAt<T>(server: seq<Response<T>>, page: nat): Response<T> {
    if 1 <= page <= |server| then server[page - 1] else Page([])
  }

  /** A response after which the loop asks for the next page: a non-empty page holding at
      least perPage items. */
  predicate Continues<T>(r: Response<T>, perPage: int) {
    r.Page? && r.items != [] && |r.items| >= perPage
  }

  /** The items a response adds to `data`: a page's items (none when it is empty), nothing
      for a failure. */
  function Contribution<T>(r: Response<T>): seq<T> {
    if r.Page? then r.items else []
  }

  /** The loop's behaviour from page `page` on. */
  function FetchFrom<T>(server: seq<Response<T>>, perPage: int, page: nat): Outcome<T>
    requires page >= 1
    decreases |server| + 1 - page
  {
    var r := PageAt(server, page);
    if Continues(r, perPage) then
      var rest := FetchFrom(server, perPage, page + 1);
      Outcome(r.items + rest.data, rest.lastPage)
    else
      Outcome(Contribution(r), page)
  }

  /** The whole loop: it makes at least one request and stops by the first page past the
      end of the server at the latest. */
  function Fetch<T>(server: seq<Response<T>>, perPage: int): (r: Outcome<T>)
    ensures 1 <= r.lastPage <= |server| + 1
  {
    FetchFromBounds(server, perPage, 1);
    FetchFrom(server, perPage, 1)
  }

  /** From page on, the loop makes at least one request, and none past the first page after
      the end of the server; starting past the end, it stops at once with nothing. */
  lemma {:induction false} FetchFromBounds<T>(server: seq<Response<T>>, perPage: int, page: nat)
    requires page >= 1
    ensures page <= FetchFrom(server, perPage, page).lastPage
    ensures page <= |server| + 1 ==> FetchFrom(server, perPage, page).lastPage <= |server| + 1
    ensures page > |server| ==> FetchFrom(server, perPage, page) == Outcome([], page)
    decreases |server| + 1 - page
  {
    if Continues(PageAt(server, page), perPage) {
      FetchFromBounds(server, perPage, page + 1);
    }
  }

  /** The items of pages lo .. hi-1, concatenated in page order. */
  function ItemsOfPages<T>(server: seq<Response<T>>, lo: nat, hi: nat): seq<T>
    requires lo <= hi
    decreases hi - lo
  {
    if lo == hi then [] else Contribution(PageAt(server, lo)) + ItemsOfPages(server, lo + 1, hi)
  }

  /** The loop as written: `data` grows by `extend`, `page` counts up from 1, and every
      request is recorded in `requested`. */
  method FetchWordPressData<T>(server: seq<Response<T>>, perPage: int)
    returns (data: seq<T>, requested: seq<nat>)
    ensures |requested| >= 1
    ensures forall i :: 0 <= i < |requested| ==> requested[i] == i + 1
    ensures data == Fetch(server, perPage).data
    ensures |requested| == Fetch(server, perPage).lastPage
  {
    data, requested := [], [];
    var page := 1;
    while true
      invariant page >= 1 && |requested| == page - 1
      invariant forall i :: 0 <= i < |requested| ==> requested[i] == i + 1
      invariant data + FetchFrom(server, perPage, page).data == Fetch(server, perPage).data
      invariant FetchFrom(server, perPage, page).lastPage == Fetch(server, perPage).lastPage
      decreases |server| + 1 - page
    {
      requested := requested + [page];
      var response := PageAt(server, page);
      match response {
        case Failed =>
          break;
        case Page(items) =>
          if items == [] {
            break;
          }
          ghost var rest := FetchFrom(server, perPage, page + 1).data;
          if |items| < perPage {
            data := data + items;
            break;
          }
          assert data + (items + rest) == (data + items) + rest;
          data := data + items;
      }
      page := page + 1;
    }
  }

  /** The loop stops at the first page that does not continue; every earlier page was full
      (at least perPage items) and appended whole, and the stopping page adds its items when
      it is a short non-empty page and nothing when it is empty or failed. */
  lemma {:induction false} FetchFromShape<T>(server: seq<Response<T>>, perPage: int, page: nat)
    requires page >= 1
    ensures var o := FetchFrom(server, perPage, page);
            page <= o.lastPage && ShapedFrom(server, perPage, page, o)
    decreases |server| + 1 - page
  {
    if Continues(PageAt(server, page), perPage) {
      var next := page + 1;
      FetchFromShape(server, perPage, next);
      ShapeStep(server, perPage, page);
    }
  }

  /** o is what the loop gathers from page on: pages page .. o.lastPage-1 continue, page
      o.lastPage does not, and the data is their items in page order followed by the last
      page's contribution. */
  ghost predicate ShapedFrom<T>(server: seq<Response<T>>, perPage: int, page: nat, o: Outcome<T>)
    requires page <= o.lastPage
  {
    && (forall p :: page <= p < o.lastPage ==> Continues(PageAt(server, p), perPage))
    && !Continues(PageAt(server, o.lastPage), perPage)
    && o.data == ItemsOfPages(server, page, o.lastPage) + Contribution(PageAt(server, o.lastPage))
  }

  /** The step of FetchFromShape: a page that continues keeps the shape. */
  lemma ShapeStep<T>(server: seq<Response<T>>, perPage: int, page: nat)
    requires page >= 1 && Continues(PageAt(server, page), perPage)
    requires var o := FetchFrom(server, perPage, page + 1);
             page + 1 <= o.lastPage && ShapedFrom(server, perPage, page + 1, o)
    ensures var o := FetchFrom(server, perPage, page);
            page <= o.lastPage && ShapedFrom(server, perPage, page, o)
  {
    var o := FetchFrom(server, perPage, page + 1);
    var items, tail := PageAt(server, page).items, Contribution(PageAt(server, o.lastPage));
    var rest := ItemsOfPages(server, page + 1, o.lastPage);
    assert items + (rest + tail) == (items + rest) + tail;
  }

  /** Conversely, the first page that does not continue is where the loop stops. */
  lemma {:induction false} FetchFromStopsAt<T>(server: seq<Response<T>>, perPage: int, page: nat, last: nat)
    requires 1 <= page <= last
    requires forall p :: page <= p < last ==> Continues(PageAt(server, p), perPage)
    requires !Continues(PageAt(server, last), perPage)
    ensures FetchFrom(server, perPage, page)
            == Outcome(ItemsOfPages(server, page, last) + Contribution(PageAt(server, last)), last)
    decreases last - page
  {
    if page < last {
      var next := page + 1;
      FetchFromStopsAt(server, perPage, next, last);
      StopsAtStep(server, perPage, page, last);
    }
  }

  /** The step of FetchFromStopsAt: a page that continues puts its items in front of what
      the loop gathers from the next page on. */
  lemma StopsAtStep<T>(server: seq<Response<T>>, perPage: int, page: nat, last: nat)
    requires 1 <= page < last && Continues(PageAt(server, page), perPage)
    requires FetchFrom(server, perPage, page + 1)
             == Outcome(ItemsOfPages(server, page + 1, last) + Contribution(PageAt(server, last)), last)
    ensures FetchFrom(server, perPage, page)
            == Outcome(ItemsOfPages(server, page, last) + Contribution(PageAt(server, last)), last)
  {
    var items, rest, tail := PageAt(server, page).items, ItemsOfPages(server, page + 1, last), Contribution(PageAt(server, last));
    assert items + (rest + tail) == (items + rest) + tail;
  }

  /** The whole fetch, characterised without recursion: it stops at page `last` exactly when
      pages 1 .. last-1 continue and page `last` does not, and then returns the in-order
      concatenation of those pages plus the last page's contribution. */
  lemma FetchStopsExactlyAt<T>(server: seq<Response<T>>, perPage: int, last: nat)
    requires last >= 1
    ensures Fetch(server, perPage).lastPage == last
            <==> (forall p :: 1 <= p < last ==> Continues(PageAt(server, p), perPage))
                 && !Continues(PageAt(server, last), perPage)
    ensures Fetch(server, perPage).lastPage == last ==>
              Fetch(server, perPage).data == ItemsOfPages(server, 1, last) + Contribution(PageAt(server, last))
  {
    FetchFromShape(server, perPage, 1);
    if (forall p :: 1 <= p < last ==> Continues(PageAt(server, p), perPage))
       && !Continues(PageAt(server, last), perPage) {
      FetchFromStopsAt(server, perPage, 1, last);
    }
  }

  /** Every page appended before the last one held at least perPage items. */
  lemma FullPagesBeforeLast<T>(server: seq<Response<T>>, perPage: int, p: nat)
    requires 1 <= p < Fetch(server, perPage).lastPage
    ensures PageAt(server, p).Page? && |PageAt(server, p).items| >= perPage
  {
    FetchFromShape(server, perPage, 1);
  }

  /** A failed page ends the fetch with the items of the earlier pages and nothing from it. */
  lemma FailureKeepsEarlierItems<T>(server: seq<Response<T>>, perPage: int, last: nat)
    requires last >= 1
    requires forall p :: 1 <= p < last ==> Continues(PageAt(server, p), perPage)
    requires PageAt(server, last) == Failed
    ensures Fetch(server, perPage) == Outcome(ItemsOfPages(server, 1, last), last)
  {
    FetchFromStopsAt(server, perPage, 1, last);
  }

  /** An empty page ends the fetch without adding anything. */
  lemma EmptyPageAddsNothing<T>(server: seq<Response<T>>, perPage: int, last: nat)
    requires last >= 1
    requires forall p :: 1 <= p < last ==> Continues(PageAt(server, p), perPage)
    requires PageAt(server, last) == Page([])
    ensures Fetch(server, perPage) == Outcome(ItemsOfPages(server, 1, last), last)
  {
    FetchFromStopsAt(server, perPage, 1, last);
  }

  /** A non-empty page shorter than perPage is appended and then ends the fetch. */
  lemma ShortPageIsAppendedThenStops<T>(server: seq<Response<T>>, perPage: int, last: nat)
    requires last >= 1
    requires forall p :: 1 <= p < last ==> Continues(PageAt(server, p), perPage)
    requires PageAt(server, last).Page? && PageAt(server, last).items != []
    requires |PageAt(server, last).items| < perPage
    ensures Fetch(server, perPage)
            == Outcome(ItemsOfPages(server, 1, last) + PageAt(server, last).items, last)
  {
    FetchFromStopsAt(server, perPage, 1, last);
  }

  /** Pages of 100, 100 and 42 items with per_page = 100 give 242 items after 3 requests. */
  lemma ThreePagesExample()
    ensures var server := [Page(seq(100, i => i)), Page(seq(100, i => 100 + i)), Page(seq(42, i => 200 + i))];
            var o := Fetch(server, 100);
            |o.data| == 242 && o.lastPage == 3 && o.data == seq(242, i => i)
  {
    var server := [Page(seq(100, i => i)), Page(seq(100, i => 100 + i)), Page(seq(42, i => 200 + i))];
    assert FetchFrom(server, 100, 3) == Outcome(seq(42, i => 200 + i), 3);
    assert FetchFrom(server, 100, 2) == Outcome(seq(100, i => 100 + i) + seq(42, i => 200 + i), 3);
    assert seq(100, i => i) + (seq(100, i => 100 + i) + seq(42, i => 200 + i)) == seq(242, i => i);
  }

  /** An empty first page gives no items after one request. */
  lemma EmptyFirstPage<T>(server: seq<Response<T>>, perPage: int)
    requires PageAt(server, 1) == Page([])
    ensures Fetch(server, perPage) == Outcome([], 1)
  {
  }
}
